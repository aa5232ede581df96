/** Running units and their actions (ts/api/tsint/source/unit.c).

    A unit invocation gets a fresh id, a frame for its global block with
    the inputs bound, its output assignment, and a run of its statements.
    A unit with actions that did not `finish` stays active: its global
    frame lives on and its actions wait on the pending list. Each run of
    statements consults the controller (when there is one) and the abort
    signal before every statement; both are given as a script of ticks. */
module IntUnit {
  import opened Wrappers
  import opened DefTypes
  import opened Def
  import opened IntValue
  import opened IntFFI
  import opened ExpEval
  import opened IntBlock
  import opened IntStatement
  import opened IntAction

  /** What RunBlock meets before one statement: the mode the controller
      answers (consulted only when there is a controller and the unit is
      not in RUN mode) and whether the abort signal is set. */
  datatype Tick = Tick(controllerMode: Mode, abort: bool)

  /** What the interpreter calls out to: nested units and plugin functions,
      the trigger controllers, whether a controller is attached, and the
      bound on the rounds of an empty loop. */
  datatype Context = Context(o: Oracles, ctl: Controller, hasController: bool, fuel: nat)

  /** RunBlock: run statements until none is current. Before each one the
      location is recorded, a controller (unless running freely) picks the
      mode, HALT raising the halt exception, and a set abort signal halts
      the unit. One tick is used per statement; running out of ticks is
      left undetermined. */
  function RunBlock(s: UnitState, cx: Context, ticks: seq<Tick>): (r: StepResult)
    requires Valid(s)
    ensures s.pc.None? ==> r == Next(s)
    ensures r.Next? ==> r.state.pc.None? && Valid(r.state)
    ensures r.Next? && s.pc.Some? ==> |r.state.frames| <= 1
    ensures (r.Next? || r.Threw?) ==> r.state.unitId == s.unitId
    decreases |ticks|
  {
    if s.pc.None? then Next(s)
    else if |ticks| == 0 then Unknown
    else
      var s1 := s.(location := Current(s).location);
      var asked := cx.hasController && s1.mode != Run;
      var s2 := if asked then s1.(mode := ticks[0].controllerMode) else s1;
      if asked && s2.mode == Halt then Threw(s2, Halted)
      else if ticks[0].abort then Threw(s2.(mode := Halt), Halted)
      else
        ProcessStatementValid(s2, cx.o, cx.fuel);
        ProcessStatementKeeps(s2, cx.o, cx.fuel);
        match ProcessStatement(s2, cx.o, cx.fuel)
        case Next(s3) => RunBlock(s3, cx, ticks[1..])
        case other => other
  }

  /** A controller that answers HALT stops the unit before the statement,
      raising the halt exception. */
  lemma ControllerHaltStops(s: UnitState, cx: Context, ticks: seq<Tick>)
    requires Valid(s) && s.pc.Some? && |ticks| > 0
    requires cx.hasController && s.mode != Run && ticks[0].controllerMode == Halt
    ensures RunBlock(s, cx, ticks) == Threw(s.(location := Current(s).location, mode := Halt), Halted)
  {
  }

  /** A set abort signal halts the unit before the statement, and the
      unit's mode becomes HALT. */
  lemma AbortStops(s: UnitState, cx: Context, ticks: seq<Tick>)
    requires Valid(s) && s.pc.Some? && |ticks| > 0 && ticks[0].abort
    requires !(cx.hasController && s.mode != Run && ticks[0].controllerMode == Halt)
    ensures RunBlock(s, cx, ticks).Threw? && RunBlock(s, cx, ticks).exception == Halted &&
            RunBlock(s, cx, ticks).state.mode == Halt
  {
  }

  /** Nested units hand back the mode they were given. */
  ghost predicate ModePassedBack(o: Oracles)
  {
    forall n, a, m :: o.unitMode(n, a, m) == m
  }

  /** A run of statements never changes the unit's invocation id, and
      without a controller, an abort or a nested unit handing back another
      mode, it never changes the mode either. */
  lemma {:induction false} RunBlockKeeps(s: UnitState, cx: Context, ticks: seq<Tick>)
    requires Valid(s)
    ensures RunBlock(s, cx, ticks).Next? || RunBlock(s, cx, ticks).Threw? ==>
              RunBlock(s, cx, ticks).state.unitId == s.unitId
    ensures RunBlock(s, cx, ticks).Next? && !cx.hasController && ModePassedBack(cx.o) ==>
              RunBlock(s, cx, ticks).state.mode == s.mode
    decreases |ticks|
  {
    if s.pc.Some? && |ticks| > 0 {
      var s1 := s.(location := Current(s).location);
      var asked := cx.hasController && s1.mode != Run;
      var s2 := if asked then s1.(mode := ticks[0].controllerMode) else s1;
      if !(asked && s2.mode == Halt) && !ticks[0].abort {
        var r := ProcessStatement(s2, cx.o, cx.fuel);
        ProcessStatementKeeps(s2, cx.o, cx.fuel);
        if r.Next? {
          ProcessStatementValid(s2, cx.o, cx.fuel);
          RunBlockKeeps(r.state, cx, ticks[1..]);
        }
      }
    }
  }

  /** A statement keeps the invocation id, and changes the mode only
      through a nested unit handing one back. */
  lemma ProcessStatementKeeps(s: UnitState, o: Oracles, fuel: nat)
    requires PcValid(s) && s.pc.Some?
    ensures ProcessStatement(s, o, fuel).Next? || ProcessStatement(s, o, fuel).Threw? ==>
              ProcessStatement(s, o, fuel).state.unitId == s.unitId
    ensures ProcessStatement(s, o, fuel).Next? && ModePassedBack(o) ==> ProcessStatement(s, o, fuel).state.mode == s.mode
  {
    var step := RunCurrent(s, o);
    RunCurrentKeeps(s, o);
    if step.Next? {
      SettleKeeps(step.state, o, fuel);
    }
  }

  /** The current statement's own step keeps the invocation id, and the
      mode unless a nested unit hands one back. */
  lemma RunCurrentKeeps(s: UnitState, o: Oracles)
    requires PcValid(s) && s.pc.Some?
    ensures RunCurrent(s, o).Next? || RunCurrent(s, o).Threw? ==> RunCurrent(s, o).state.unitId == s.unitId
    ensures RunCurrent(s, o).Next? && ModePassedBack(o) ==> RunCurrent(s, o).state.mode == s.mode
  {
    var i := s.pc.value;
    var kind := Current(s).kind;
    var step := RunCurrent(s, o);
    assert (step.Next? || step.Threw?) ==> step.state.unitId == s.unitId by {
      match kind {
        case CallStmt(c) => CallKeeps(s, o, c, i);
        case AssignStmt(a) =>
        case IfStmt(_, _, _) =>
        case LoopStmt(_, _) => LoopStartKeeps(s, o, kind, i);
        case ContinueStmt =>
          if UnwindToLoop(s).Some? {
            LoopFinishKeeps(UnwindToLoop(s).value, o, Top(UnwindToLoop(s).value).owner.value);
          }
        case BreakStmt =>
        case FinishStmt =>
      }
    }
    assert step.Next? && ModePassedBack(o) ==> step.state.mode == s.mode by {
      match kind {
        case CallStmt(c) => CallKeeps(s, o, c, i);
        case AssignStmt(a) =>
        case IfStmt(_, _, _) =>
        case LoopStmt(_, _) => LoopStartKeeps(s, o, kind, i);
        case ContinueStmt =>
          if UnwindToLoop(s).Some? {
            LoopFinishKeeps(UnwindToLoop(s).value, o, Top(UnwindToLoop(s).value).owner.value);
          }
        case BreakStmt =>
        case FinishStmt =>
      }
    }
  }

  lemma CallKeeps(s: UnitState, o: Oracles, c: FunctionCall, i: nat)
    requires |s.frames| > 0
    ensures var r := ProcessFunctionCall(s, o, c, i);
            (r.Next? || r.Threw?) ==> r.state.unitId == s.unitId
    ensures var r := ProcessFunctionCall(s, o, c, i);
            r.Next? && ModePassedBack(o) ==> r.state.mode == s.mode
  {
    if c.target.Some? && c.target.value.UnitTarget? && ModePassedBack(o) {
      var args := UnitArguments(EnvOf(s, o), c, c.target.value.inputTypes, 0);
      if args.Done? {
        assert o.unitMode(c.target.value.unitName, args.value, ControlModeForInvokedUnit(s.mode)) ==
               ControlModeForInvokedUnit(s.mode);
      }
    }
  }

  lemma LoopStartKeeps(s: UnitState, o: Oracles, kind: StmtKind, i: nat)
    requires kind.LoopStmt? && PcValid(s) && s.pc.Some? && i == s.pc.value && Current(s).kind == kind
    ensures var r := ProcessLoopStart(s, o, kind, i);
            (r.Next? || r.Threw?) ==> r.state.unitId == s.unitId && r.state.mode == s.mode
  {
    var s1 := StartBlock(s, kind.body, Some(kind), Following(Top(s).block, i));
    match kind.loop
    case ForLoop(_, _, _, _) =>
      match SetUpForLoop(s1, o, kind.loop, |s.frames|) {
        case Next(s4) =>
          match ContinueLoop(s4, o, kind.loop) {
            case Done(go) => assert ProcessLoopStart(s, o, kind, i) == EnterOrLeave(s4, go);
            case _ =>
          }
        case _ =>
      }
    case PlainLoop =>
    case WhileLoop(cond) =>
      match EvalCondition(s1, o, cond)
      case Done(go) => assert ProcessLoopStart(s, o, kind, i) == EnterOrLeave(s1, go);
      case _ =>
  }

  /** Leaving blocks and going round loops keeps the id and the mode. */
  lemma {:induction false} SettleKeeps(s: UnitState, o: Oracles, fuel: nat)
    ensures var r := Settle(s, o, fuel);
            (r.Next? || r.Threw?) ==> r.state.unitId == s.unitId && r.state.mode == s.mode
    decreases fuel, |s.frames|
  {
    if s.pc.None? && |s.frames| > 1 {
      if Top(s).owner.Some? && Top(s).owner.value.LoopStmt? {
        if fuel > 0 {
          var r := ProcessLoopFinish(s, o, Top(s).owner.value);
          LoopFinishKeeps(s, o, Top(s).owner.value);
          if r.Next? {
            SettleKeeps(r.state, o, fuel - 1);
          }
        }
      } else {
        SettleKeeps(FinishBlock(s), o, fuel);
      }
    }
  }

  lemma LoopFinishKeeps(s: UnitState, o: Oracles, kind: StmtKind)
    requires kind.LoopStmt? && |s.frames| > 0
    ensures var r := ProcessLoopFinish(s, o, kind);
            (r.Next? || r.Threw?) ==> r.state.unitId == s.unitId && r.state.mode == s.mode
  {
  }

  /** The exception exit of InvokeUnit and ProcessUnitAction: a unit not
      already halted tells the controller (its answer is ignored) and is
      halted. */
  function HaltOnException(s: UnitState, hasController: bool): (s': UnitState)
    ensures hasController ==> s'.mode == Halt
    ensures !hasController ==> s' == s
    ensures s'.frames == s.frames && s'.unitId == s.unitId
  {
    if s.mode != Halt && hasController then s.(mode := Halt) else s
  }

  // ---------------------------------------------------------------------
  // The module's view of running units

  /** An active unit: its definition, its state (the global frame stays
      while its actions wait) and its count of live actions. */
  datatype ActiveUnit = ActiveUnit(unit: Unit, state: UnitState, activeCount: int)

  /** The parts of struct tsint_module_state the interpreter keeps: the
      next invocation id, the active units (newest first) and the action
      lists. */
  datatype ModuleState = ModuleState(nextUnitId: nat, active: seq<ActiveUnit>, lists: Lists)

  /** The position of the active unit with invocation id `id`. */
  function FindUnit(active: seq<ActiveUnit>, id: nat): (r: Option<nat>)
    ensures r.Some? ==> r.value < |active| && active[r.value].state.unitId == id
    ensures r.None? ==> forall i :: 0 <= i < |active| ==> active[i].state.unitId != id
  {
    if |active| == 0 then None
    else if active[0].state.unitId == id then Some(0)
    else
      match FindUnit(active[1..], id)
      case Some(i) => Some(i + 1)
      case None => None
  }

  /** The module state is well formed: every active unit's stack is well
      formed, ids are distinct and below the next id, every action of an
      active unit has its flags, and the lists are well linked. */
  predicate ModuleValid(ms: ModuleState)
  {
    Linked(ms.lists) &&
    (forall i :: 0 <= i < |ms.active| ==>
       Valid(ms.active[i].state) && !ms.active[i].state.finish && ms.active[i].state.unitId < ms.nextUnitId) &&
    (forall i, j :: 0 <= i < j < |ms.active| ==> ms.active[i].state.unitId != ms.active[j].state.unitId) &&
    (forall i, a :: 0 <= i < |ms.active| && 0 <= a < |ms.active[i].unit.actions| ==>
       KeyOf(ms.active[i].state.unitId, a) in ms.lists.flags) &&
    (forall x :: x in ms.lists.flags ==> x.unitId < ms.nextUnitId)
  }

  /** TSInt_StopUnit: stop and remove every action of the unit, take it
      off the active list and release its stack. */
  function StopUnit(ms: ModuleState, idx: nat): (r: ModuleState)
    requires idx < |ms.active|
    requires forall a :: 0 <= a < |ms.active[idx].unit.actions| ==> KeyOf(ms.active[idx].state.unitId, a) in ms.lists.flags
    ensures r.nextUnitId == ms.nextUnitId
    ensures r.active == ms.active[..idx] + ms.active[idx + 1..]
    ensures Linked(ms.lists) ==> Linked(r.lists)
    ensures Linked(ms.lists) ==>
              forall a :: 0 <= a < |ms.active[idx].unit.actions| ==>
                KeyOf(ms.active[idx].state.unitId, a) !in r.lists.pending &&
                KeyOf(ms.active[idx].state.unitId, a) !in r.lists.signaled
    ensures r.lists.flags.Keys == ms.lists.flags.Keys
  {
    var u := ms.active[idx];
    var stopped := StopActions(ms.lists, u.state.unitId, u.unit.actions);
    assert stopped.0 == RemoveActions(ms.lists, u.state.unitId, 0, |u.unit.actions|);
    ms.(active := ms.active[..idx] + ms.active[idx + 1..], lists := stopped.0)
  }

  /** Stopping a unit keeps the module state well formed. */
  lemma StopUnitValid(ms: ModuleState, idx: nat)
    requires ModuleValid(ms) && idx < |ms.active|
    ensures ModuleValid(StopUnit(ms, idx))
  {
    var r := StopUnit(ms, idx);
    assert r == ms.(active := ms.active[..idx] + ms.active[idx + 1..], lists := r.lists);
    DropUnitValid(ms, idx, r.lists);
  }

  /** Taking one unit off the active list, with new lists that keep the
      same flag keys and stay well linked, keeps the module state well
      formed. */
  lemma DropUnitValid(ms: ModuleState, idx: nat, lists: Lists)
    requires ModuleValid(ms) && idx < |ms.active|
    requires Linked(lists) && lists.flags.Keys == ms.lists.flags.Keys
    ensures ModuleValid(ms.(active := ms.active[..idx] + ms.active[idx + 1..], lists := lists))
  {
    var r := ms.(active := ms.active[..idx] + ms.active[idx + 1..], lists := lists);
    forall i | 0 <= i < |r.active|
      ensures r.active[i] == ms.active[if i < idx then i else i + 1]
    {
    }
    forall i, j | 0 <= i < j < |r.active|
      ensures r.active[i].state.unitId != r.active[j].state.unitId
    {
      var i' := if i < idx then i else i + 1;
      var j' := if j < idx then j else j + 1;
      assert r.active[i] == ms.active[i'] && r.active[j] == ms.active[j'];
    }
    forall i, a | 0 <= i < |r.active| && 0 <= a < |r.active[i].unit.actions|
      ensures KeyOf(r.active[i].state.unitId, a) in r.lists.flags
    {
      var i' := if i < idx then i else i + 1;
      assert r.active[i] == ms.active[i'];
    }
  }

  // ---------------------------------------------------------------------
  // Invoking a unit

  /** The input binding of InvokeUnit: argument `i` goes, as it is, into
      the slot of input variable `i`, which becomes initialized. Running
      past the arguments reads beyond the caller's array. */
  function BindInputs(s: UnitState, inputs: seq<VarRef>, args: seq<Value>, i: nat): (r: Outcome<UnitState>)
    requires i <= |inputs|
    ensures !r.Raised?
    ensures r.Done? && i < |inputs| ==> |inputs| <= |args|
    ensures r.Done? ==> SameShape(s.frames, r.value.frames) &&
                        r.value == s.(frames := r.value.frames)
    ensures r.Done? ==> forall j :: i <= j < |inputs| ==> inputs[j].binding.Some? && Addressable(s.frames, inputs[j].binding.value)
    decreases |inputs| - i
  {
    if i == |inputs| then Done(s)
    else if i >= |args| || inputs[i].binding.None? || !Addressable(s.frames, inputs[i].binding.value) then Unspecified
    else BindInputs(s.(frames := WriteSlot(s.frames, inputs[i].binding.value, args[i])), inputs, args, i + 1)
  }

  /** Inputs bound to distinct slots each read back their own argument. */
  lemma {:induction false} BindInputsReadsBack(s: UnitState, inputs: seq<VarRef>, args: seq<Value>, i: nat)
    requires i <= |inputs|
    requires forall j, k :: i <= j < k < |inputs| && inputs[j].binding.Some? && inputs[k].binding.Some? ==>
               (inputs[j].binding.value.depth, inputs[j].binding.value.index) !=
               (inputs[k].binding.value.depth, inputs[k].binding.value.index)
    ensures BindInputs(s, inputs, args, i).Done? ==>
              forall j :: i <= j < |inputs| ==>
                IntBlock.LookupVariable(BindInputs(s, inputs, args, i).value, inputs[j].binding.value) == Done(args[j])
    decreases |inputs| - i
  {
    if i < |inputs| && BindInputs(s, inputs, args, i).Done? {
      var b := inputs[i].binding.value;
      var s1 := s.(frames := WriteSlot(s.frames, b, args[i]));
      BindInputsReadsBack(s1, inputs, args, i + 1);
      var r := BindInputs(s1, inputs, args, i + 1).value;
      BindInputsKeepsOthers(s1, inputs, args, i + 1, b);
      assert IntBlock.LookupVariable(s1, b) == Done(args[i]);
    }
  }

  /** Binding later inputs leaves a slot none of them names unchanged. */
  lemma {:induction false} BindInputsKeepsOthers(s: UnitState, inputs: seq<VarRef>, args: seq<Value>, i: nat, b: VarBinding)
    requires i <= |inputs|
    requires forall j :: i <= j < |inputs| && inputs[j].binding.Some? ==>
               (inputs[j].binding.value.depth, inputs[j].binding.value.index) != (b.depth, b.index)
    ensures BindInputs(s, inputs, args, i).Done? ==>
              IntBlock.LookupVariable(BindInputs(s, inputs, args, i).value, b) == IntBlock.LookupVariable(s, b)
    decreases |inputs| - i
  {
    if i < |inputs| && BindInputs(s, inputs, args, i).Done? {
      var s1 := s.(frames := WriteSlot(s.frames, inputs[i].binding.value, args[i]));
      BindInputsKeepsOthers(s1, inputs, args, i + 1, b);
    }
  }

  /** The result of an invocation: the module state, the output value (None
      without an output or when the caller does not want it), and the
      mode handed back. */
  datatype Invoked = Invoked(ms: ModuleState, outcome: Outcome<Option<Value>>, mode: Mode)

  /** The start of InvokeUnit: a frame for the global block, the inputs
      bound and the output assignment performed. An exception from the
      output's expression is raised. */
  function PrepareUnit(unit: Unit, args: seq<Value>, mode: Mode, id: nat, o: Oracles): (r: Outcome<UnitState>)
    ensures r.Done? ==> Valid(r.value) && r.value.mode == mode && r.value.unitId == id && !r.value.finish &&
                        |r.value.frames| == 1 && r.value.frames[0].block == unit.global &&
                        r.value.pc == FirstStatement(unit.global)
  {
    var bound := GlobalFrame(unit, args, mode, id);
    if !bound.Done? || unit.output.None? then bound
    else
      var sb := bound.value.(location := unit.output.value.location);
      var afterOut := PerformAssignment(sb, o, unit.output.value.assignment);
      if afterOut.Done? then
        SameShapeValid(sb, afterOut.value.frames);
        afterOut
      else afterOut
  }

  /** The global block's frame with the inputs bound. */
  function GlobalFrame(unit: Unit, args: seq<Value>, mode: Mode, id: nat): (r: Outcome<UnitState>)
    ensures !r.Raised?
    ensures r.Done? ==> Valid(r.value) && r.value.mode == mode && r.value.unitId == id && !r.value.finish &&
                        |r.value.frames| == 1 && r.value.frames[0].block == unit.global &&
                        r.value.pc == FirstStatement(unit.global)
  {
    var empty := UnitState([], None, 0, mode, false, id);
    var s0 := StartBlock(empty, unit.global, None, None);
    StartBlockValid(empty, unit.global, None, None);
    if unit.input.None? then Done(s0)
    else
      var s1 := s0.(location := unit.input.value.location);
      var bound := BindInputs(s1, unit.input.value.variables, args, 0);
      if bound.Done? then
        SameShapeValid(s1, bound.value.frames);
        bound
      else bound
  }

  /** TSInt_InvokeUnit. The id is taken whatever happens next; a unit with
      actions that did not finish is armed and becomes the newest active
      unit; any other unit's frame is released. */
  function InvokeUnit(ms: ModuleState, cx: Context, unit: Unit, args: seq<Value>, mode: Mode,
                      wantOutput: bool, ticks: seq<Tick>): (r: Invoked)
    ensures r.ms.nextUnitId == ms.nextUnitId + 1
    ensures r.outcome.Raised? && cx.hasController ==> r.mode == Halt
    ensures r.outcome.Done? ==> r.ms.active == ms.active || (|r.ms.active| > 0 && r.ms.active[1..] == ms.active)
    ensures r.outcome.Done? && r.ms.active != ms.active ==>
              |r.ms.active| == |ms.active| + 1 && r.ms.active[0].unit == unit &&
              r.ms.active[0].state.unitId == ms.nextUnitId && |unit.actions| > 0 && !r.ms.active[0].state.finish
    ensures r.outcome.Done? && (wantOutput && unit.output.Some?) ==> r.outcome.value.Some?
    ensures r.outcome.Done? && !(wantOutput && unit.output.Some?) ==> r.outcome.value.None?
    ensures r.outcome.Raised? ==> r.ms.active == ms.active
  {
    var id := ms.nextUnitId;
    var ms1 := ms.(nextUnitId := id + 1);
    match PrepareUnit(unit, args, mode, id, cx.o)
    case Raised(x) => Fail(ms1, UnitState([], None, 0, mode, false, id), x, cx.hasController)
    case Unspecified => Invoked(ms1, Unspecified, mode)
    case Done(s2) =>
      RunBlockKeeps(s2, cx, ticks);
      match RunBlock(s2, cx, ticks)
      case Threw(s3, x) => Fail(ms1, s3, x, cx.hasController)
      case Unknown => Invoked(ms1, Unspecified, mode)
      case Next(s3) => AfterRun(ms1, cx, unit, s3, wantOutput, mode)
  }

  /** The end of InvokeUnit once the statements have run: read the output,
      then arm the actions or release the frame. */
  function AfterRun(ms1: ModuleState, cx: Context, unit: Unit, s3: UnitState, wantOutput: bool, mode: Mode): (r: Invoked)
    requires ms1.nextUnitId > 0
    ensures r.ms.nextUnitId == ms1.nextUnitId
    ensures r.outcome.Raised? && cx.hasController ==> r.mode == Halt
    ensures r.outcome.Done? ==> r.ms.active == ms1.active || (|r.ms.active| > 0 && r.ms.active[1..] == ms1.active)
    ensures r.outcome.Done? && r.ms.active != ms1.active ==>
              |r.ms.active| == |ms1.active| + 1 && r.ms.active[0].unit == unit && r.ms.active[0].state == s3 &&
              |unit.actions| > 0 && !s3.finish
    ensures r.outcome.Done? && |unit.actions| > 0 && !s3.finish ==> r.ms.active != ms1.active
    ensures r.outcome.Done? && (wantOutput && unit.output.Some?) ==> r.outcome.value.Some?
    ensures r.outcome.Done? && !(wantOutput && unit.output.Some?) ==> r.outcome.value.None?
    ensures r.outcome.Raised? ==> r.ms.active == ms1.active
  {
    match OutputValue(unit, s3, wantOutput)
    case Done(out) => Arm(ms1, cx, unit, s3, out, mode)
    case _ => Invoked(ms1, Unspecified, mode)
  }

  /** The output variable's value after the run, when the caller wants it:
      the slot the output assignment writes. */
  function OutputValue(unit: Unit, s: UnitState, wantOutput: bool): (r: Outcome<Option<Value>>)
    ensures !r.Raised?
    ensures r.Done? ==> (r.value.Some? <==> wantOutput && unit.output.Some?)
    ensures r.Done? && r.value.Some? ==>
              unit.output.value.assignment.lvalue.binding.Some? &&
              IntBlock.LookupVariable(s, unit.output.value.assignment.lvalue.binding.value) == Done(r.value.value)
  {
    if unit.output.Some? && wantOutput then
      if unit.output.value.assignment.lvalue.binding.None? then Unspecified
      else
        match IntBlock.LookupVariable(s, unit.output.value.assignment.lvalue.binding.value)
        case Done(v) => Done(Some(v))
        case _ => Unspecified
    else Done(None)
  }

  /** Arm the actions of a unit that did not finish, making it the newest
      active unit; release any other unit. */
  function Arm(ms1: ModuleState, cx: Context, unit: Unit, s3: UnitState, out: Option<Value>, mode: Mode): (r: Invoked)
    ensures r.ms.nextUnitId == ms1.nextUnitId
    ensures r.outcome.Raised? && cx.hasController ==> r.mode == Halt
    ensures r.outcome.Done? ==> r.outcome.value == out
    ensures r.outcome.Done? && |unit.actions| > 0 && !s3.finish ==>
              r.ms.active == [ActiveUnit(unit, s3, |unit.actions|)] + ms1.active
    ensures !(r.outcome.Done? && |unit.actions| > 0 && !s3.finish) ==> r.ms.active == ms1.active
    ensures !(|unit.actions| > 0 && !s3.finish) ==> r.ms == ms1 && r.outcome == Done(out)
  {
    if |unit.actions| > 0 && !s3.finish then
      ArmWith(ms1, cx.hasController, unit, s3, out, mode,
              InitActions(ms1.lists, 0, s3.unitId, unit.actions, EnvOf(s3, cx.o), cx.ctl))
    else Invoked(ms1, Done(out), s3.mode)
  }

  /** What InitActions' answer makes of the unit: the newest active unit
      when every action armed, the exception exit when one raised. */
  function ArmWith(ms1: ModuleState, hasController: bool, unit: Unit, s3: UnitState, out: Option<Value>, mode: Mode,
                   armed: Armed): (r: Invoked)
    ensures r.ms.nextUnitId == ms1.nextUnitId
    ensures r.outcome.Raised? && hasController ==> r.mode == Halt
    ensures r.outcome.Done? <==> armed.outcome.Done?
    ensures r.outcome.Done? ==>
              r.outcome.value == out &&
              r.ms == ms1.(active := [ActiveUnit(unit, s3, armed.activeCount)] + ms1.active, lists := armed.lists)
    ensures armed.outcome.Raised? ==> r.ms == ms1.(lists := armed.lists) && r.outcome == Raised(armed.outcome.exception)
    ensures armed.outcome.Unspecified? ==> r.ms == ms1
  {
    match armed.outcome
    case Done(_) =>
      Invoked(ms1.(active := [ActiveUnit(unit, s3, armed.activeCount)] + ms1.active, lists := armed.lists),
              Done(out), s3.mode)
    case Raised(x) =>
      Fail(ms1.(lists := armed.lists), s3, x, hasController)
    case Unspecified => Invoked(ms1, Unspecified, mode)
  }

  /** The exception exit of InvokeUnit: halt, release every frame, hand
      back the mode and raise. */
  function Fail(ms: ModuleState, s: UnitState, x: Exception, hasController: bool): (r: Invoked)
    ensures r.ms == ms && r.outcome == Raised(x)
    ensures r.mode == HaltOnException(s, hasController).mode
  {
    Invoked(ms, Raised(x), HaltOnException(s, hasController).mode)
  }

  /** Invoking a unit keeps the module state well formed. */
  lemma InvokeUnitValid(ms: ModuleState, cx: Context, unit: Unit, args: seq<Value>, mode: Mode,
                        wantOutput: bool, ticks: seq<Tick>)
    requires ModuleValid(ms)
    ensures ModuleValid(InvokeUnit(ms, cx, unit, args, mode, wantOutput, ticks).ms)
  {
    var id := ms.nextUnitId;
    var ms1 := ms.(nextUnitId := id + 1);
    var r := InvokeUnit(ms, cx, unit, args, mode, wantOutput, ticks);
    BumpValid(ms);
    match PrepareUnit(unit, args, mode, id, cx.o)
    case Done(s2) =>
      RunBlockKeeps(s2, cx, ticks);
      match RunBlock(s2, cx, ticks) {
        case Next(s3) =>
          assert r == AfterRun(ms1, cx, unit, s3, wantOutput, mode);
          AfterRunValid(ms, cx, unit, s3, wantOutput, mode);
        case _ =>
          assert r.ms == ms1;
      }
    case _ =>
      assert r.ms == ms1;
  }

  /** Taking the next id keeps the module state well formed. */
  lemma BumpValid(ms: ModuleState)
    requires ModuleValid(ms)
    ensures ModuleValid(ms.(nextUnitId := ms.nextUnitId + 1))
  {
  }

  lemma AfterRunValid(ms: ModuleState, cx: Context, unit: Unit, s3: UnitState, wantOutput: bool, mode: Mode)
    requires ModuleValid(ms) && Valid(s3) && s3.unitId == ms.nextUnitId
    ensures ModuleValid(AfterRun(ms.(nextUnitId := ms.nextUnitId + 1), cx, unit, s3, wantOutput, mode).ms)
  {
    var ms1 := ms.(nextUnitId := ms.nextUnitId + 1);
    assert ModuleValid(ms1);
    var out := OutputValue(unit, s3, wantOutput);
    if out.Done? {
      ArmValid(ms, cx, unit, s3, out.value, mode);
    }
  }

  lemma ArmValid(ms: ModuleState, cx: Context, unit: Unit, s3: UnitState, out: Option<Value>, mode: Mode)
    requires ModuleValid(ms) && Valid(s3) && s3.unitId == ms.nextUnitId
    ensures ModuleValid(Arm(ms.(nextUnitId := ms.nextUnitId + 1), cx, unit, s3, out, mode).ms)
  {
    var id := ms.nextUnitId;
    var ms1 := ms.(nextUnitId := id + 1);
    assert ModuleValid(ms1);
    if |unit.actions| > 0 && !s3.finish {
      var armed := InitActions(ms1.lists, 0, id, unit.actions, EnvOf(s3, cx.o), cx.ctl);
      FreshKeysUnlinked(ms1.lists, id, |unit.actions|);
      InitActionsKeepsLinked(ms1.lists, 0, id, unit.actions, EnvOf(s3, cx.o), cx.ctl);
      ArmWithValid(ms, cx.hasController, unit, s3, out, mode, armed);
    }
  }

  /** Arming keeps the module state well formed, given lists that keep
      every flag, add flags only for the new unit and stay well linked. */
  lemma ArmWithValid(ms: ModuleState, hasController: bool, unit: Unit, s3: UnitState, out: Option<Value>, mode: Mode,
                     armed: Armed)
    requires ModuleValid(ms) && Valid(s3) && !s3.finish && s3.unitId == ms.nextUnitId
    requires Linked(armed.lists)
    requires forall x :: x in ms.lists.flags ==> x in armed.lists.flags
    requires forall x :: x in armed.lists.flags ==> x.unitId <= ms.nextUnitId
    requires armed.outcome.Done? ==> forall b :: 0 <= b < |unit.actions| ==> KeyOf(s3.unitId, b) in armed.lists.pending
    ensures ModuleValid(ArmWith(ms.(nextUnitId := ms.nextUnitId + 1), hasController, unit, s3, out, mode, armed).ms)
  {
    ArmedListsValid(ms, unit, s3, armed.lists, armed.activeCount, armed.outcome.Done?);
  }

  /** No action of a unit whose id no flag carries is on either list. */
  lemma FreshKeysUnlinked(l: Lists, unitId: nat, n: nat)
    requires Linked(l) && forall x :: x in l.flags ==> x.unitId < unitId
    ensures forall b :: 0 <= b < n ==> KeyOf(unitId, b) !in l.pending && KeyOf(unitId, b) !in l.signaled
  {
    forall b | 0 <= b < n
      ensures KeyOf(unitId, b) !in l.pending && KeyOf(unitId, b) !in l.signaled
    {
      assert KeyOf(unitId, b) !in l.flags;
    }
  }

  /** The lists InitActions leaves, for a unit whose id was just taken,
      keep the module state well formed, and so does the unit joining the
      active units once every action is armed. */
  lemma ArmedListsValid(ms: ModuleState, unit: Unit, s3: UnitState, lists: Lists, activeCount: nat, armed: bool)
    requires ModuleValid(ms) && Valid(s3) && !s3.finish && s3.unitId == ms.nextUnitId
    requires Linked(lists)
    requires forall x :: x in ms.lists.flags ==> x in lists.flags
    requires forall x :: x in lists.flags ==> x.unitId <= ms.nextUnitId
    requires armed ==> forall b :: 0 <= b < |unit.actions| ==> KeyOf(s3.unitId, b) in lists.pending
    ensures var ms1 := ms.(nextUnitId := ms.nextUnitId + 1, lists := lists);
            ModuleValid(ms1) &&
            (armed ==> ModuleValid(ms1.(active := [ActiveUnit(unit, s3, activeCount)] + ms1.active)))
  {
    var ms1 := ms.(nextUnitId := ms.nextUnitId + 1);
    ReplaceListsValid(ms1, lists);
    if armed {
      PushUnitValid(ms1.(lists := lists), ActiveUnit(unit, s3, activeCount));
    }
  }

  /** New lists that keep every flag, add flags only for ids already
      taken, and stay well linked keep the module state well formed. */
  lemma ReplaceListsValid(ms: ModuleState, lists: Lists)
    requires ModuleValid(ms) && Linked(lists)
    requires forall x :: x in ms.lists.flags ==> x in lists.flags
    requires forall x :: x in lists.flags ==> x.unitId < ms.nextUnitId
    ensures ModuleValid(ms.(lists := lists))
  {
  }

  /** A newly armed unit with a fresh id, a well formed running state and
      flags for all its actions can join the active units. */
  lemma PushUnitValid(ms: ModuleState, au: ActiveUnit)
    requires ModuleValid(ms) && Valid(au.state) && !au.state.finish && au.state.unitId < ms.nextUnitId
    requires forall i :: 0 <= i < |ms.active| ==> ms.active[i].state.unitId != au.state.unitId
    requires forall a :: 0 <= a < |au.unit.actions| ==> KeyOf(au.state.unitId, a) in ms.lists.flags
    ensures ModuleValid(ms.(active := [au] + ms.active))
  {
    var r := ms.(active := [au] + ms.active);
    forall i, j | 0 <= i < j < |r.active|
      ensures r.active[i].state.unitId != r.active[j].state.unitId
    {
      assert r.active[j] == ms.active[j - 1];
      if i > 0 {
        assert r.active[i] == ms.active[i - 1];
      }
    }
    forall i, a | 0 <= i < |r.active| && 0 <= a < |r.active[i].unit.actions|
      ensures KeyOf(r.active[i].state.unitId, a) in r.lists.flags
    {
      if i > 0 {
        assert r.active[i] == ms.active[i - 1];
      }
    }
    forall i | 0 <= i < |r.active|
      ensures Valid(r.active[i].state) && !r.active[i].state.finish && r.active[i].state.unitId < r.nextUnitId
    {
      if i > 0 {
        assert r.active[i] == ms.active[i - 1];
      }
    }
  }

  /** Successive invocations get distinct ids, in increasing order. */
  lemma InvocationIdsIncrease(ms: ModuleState, cx: Context, u1: Unit, a1: seq<Value>, m1: Mode, w1: bool, t1: seq<Tick>,
                              u2: Unit, a2: seq<Value>, m2: Mode, w2: bool, t2: seq<Tick>)
    ensures var r1 := InvokeUnit(ms, cx, u1, a1, m1, w1, t1);
            var r2 := InvokeUnit(r1.ms, cx, u2, a2, m2, w2, t2);
            r2.ms.nextUnitId == ms.nextUnitId + 2 &&
            (r2.outcome.Done? && r2.ms.active != r1.ms.active ==> r2.ms.active[0].state.unitId == ms.nextUnitId + 1)
  {
  }

  // ---------------------------------------------------------------------
  // Running an action

  /** The result of processing one signaled action: the module state, the
      outcome, and the mode handed back to the module loop. */
  datatype Processed = Processed(ms: ModuleState, outcome: Outcome<()>, mode: Mode)

  /** The module state with the active unit at `idx` replaced. */
  function Store(ms: ModuleState, idx: nat, u: ActiveUnit): (r: ModuleState)
    requires idx < |ms.active|
    ensures r.active == ms.active[idx := u] && r.lists == ms.lists && r.nextUnitId == ms.nextUnitId
  {
    ms.(active := ms.active[idx := u])
  }

  /** The exception exit of ProcessUnitAction: halt, stop the unit and
      raise. */
  function Abandon(ms: ModuleState, idx: nat, s: UnitState, x: Exception, hasController: bool): (r: Processed)
    requires idx < |ms.active|
    requires forall a :: 0 <= a < |ms.active[idx].unit.actions| ==> KeyOf(ms.active[idx].state.unitId, a) in ms.lists.flags
    ensures r.ms == StopUnit(ms, idx) && r.outcome == Raised(x)
    ensures r.mode == HaltOnException(s, hasController).mode
  {
    Processed(StopUnit(ms, idx), Raised(x), HaltOnException(s, hasController).mode)
  }

  /** The facts about a unit's action that ProcessUnitAction relies on:
      the unit is active at `idx`, its state is well formed and still
      running, and all its actions have flags. */
  predicate ActionOf(ms: ModuleState, idx: nat, key: ActionKey)
  {
    idx < |ms.active| && Valid(ms.active[idx].state) && !ms.active[idx].state.finish &&
    ms.active[idx].state.unitId == key.unitId && key.index < |ms.active[idx].unit.actions| &&
    forall a :: 0 <= a < |ms.active[idx].unit.actions| ==> KeyOf(key.unitId, a) in ms.lists.flags
  }

  /** TSInt_ProcessUnitAction for the action `key` taken off the signaled
      list. The unit's mode is the caller's; the action is evaluated; a
      FINISHED action that was the unit's last stops the unit; a TRIGGERED
      one runs its block, then stops the unit if it finished or re-arms
      the action. Any exception halts and stops the unit. A key whose unit
      is no longer active names freed memory and is left undetermined. */
  function ProcessUnitAction(ms: ModuleState, cx: Context, key: ActionKey, mode: Mode, ticks: seq<Tick>): (r: Processed)
    requires ModuleValid(ms)
    ensures FindUnit(ms.active, key.unitId).None? ==> r.outcome.Unspecified? && r.ms == ms && r.mode == mode
    ensures r.ms.nextUnitId == ms.nextUnitId
    ensures |r.ms.active| <= |ms.active|
    ensures r.outcome.Raised? && cx.hasController ==> r.mode == Halt
    ensures r.outcome.Raised? ==> |r.ms.active| == |ms.active| - 1 && FindUnit(r.ms.active, key.unitId).None?
    ensures r.outcome.Done? ==> |r.ms.active| == |ms.active| || |r.ms.active| == |ms.active| - 1
  {
    match FindUnit(ms.active, key.unitId)
    case None => Processed(ms, Unspecified, mode)
    case Some(idx) =>
      var u := ms.active[idx];
      if key.index >= |u.unit.actions| then Processed(ms, Unspecified, mode)
      else
        var action := u.unit.actions[key.index];
        var s := u.state.(location := action.location, mode := mode);
        assert key == KeyOf(key.unitId, key.index);
        var ev := EvaluateAction(ms.lists, u.activeCount, key, |action.triggers|, cx.ctl);
        var ms1 := Store(ms.(lists := ev.lists), idx, u.(state := s, activeCount := ev.activeCount));
        assert ActionOf(ms1, idx, key);
        StopUnitForgets(ms1, idx);
        Dispatch(ms1, cx, idx, key, ev.status, mode, ticks)
  }

  /** What ProcessUnitAction does with the evaluated action, the unit at
      `idx` holding its new mode and count of live actions. */
  function Dispatch(ms: ModuleState, cx: Context, idx: nat, key: ActionKey, status: Outcome<ActionStatus>,
                    mode: Mode, ticks: seq<Tick>): (r: Processed)
    requires ActionOf(ms, idx, key)
    requires FindUnit(StopUnit(ms, idx).active, key.unitId).None?
    ensures r.ms.nextUnitId == ms.nextUnitId
    ensures |r.ms.active| <= |ms.active|
    ensures r.outcome.Raised? && cx.hasController ==> r.mode == Halt
    ensures r.outcome.Raised? ==> |r.ms.active| == |ms.active| - 1 && FindUnit(r.ms.active, key.unitId).None?
    ensures r.outcome.Done? ==> |r.ms.active| == |ms.active| || |r.ms.active| == |ms.active| - 1
    ensures status != Done(ActionTriggered) ==> r.ms == ms || r.ms == StopUnit(ms, idx)
    ensures status == Done(ActionPending) ==> r == Processed(ms, Done(()), mode)
    ensures status == Done(ActionFinished) ==>
              r.outcome == Done(()) && r.mode == mode &&
              (ms.active[idx].activeCount == 0 <==> r.ms == StopUnit(ms, idx)) &&
              (ms.active[idx].activeCount != 0 ==> r.ms == ms)
  {
    match status
    case Raised(x) => Abandon(ms, idx, ms.active[idx].state, x, cx.hasController)
    case Unspecified => Processed(ms, Unspecified, mode)
    case Done(ActionPending) => Processed(ms, Done(()), mode)
    case Done(ActionFinished) =>
      if ms.active[idx].activeCount == 0 then Processed(StopUnit(ms, idx), Done(()), mode)
      else Processed(ms, Done(()), mode)
    case Done(ActionTriggered) => RunAction(ms, cx, idx, key, ticks)
  }

  /** Stopping the unit at `idx` leaves no active unit with its id. */
  lemma StopUnitForgets(ms: ModuleState, idx: nat)
    requires idx < |ms.active|
    requires forall a :: 0 <= a < |ms.active[idx].unit.actions| ==> KeyOf(ms.active[idx].state.unitId, a) in ms.lists.flags
    requires forall i :: 0 <= i < |ms.active| && i != idx ==> ms.active[i].state.unitId != ms.active[idx].state.unitId
    ensures FindUnit(StopUnit(ms, idx).active, ms.active[idx].state.unitId).None?
  {
    var r := StopUnit(ms, idx);
    forall i | 0 <= i < |r.active|
      ensures r.active[i].state.unitId != ms.active[idx].state.unitId
    {
      var i' := if i < idx then i else i + 1;
      assert r.active[i] == ms.active[i'];
    }
  }

  /** A TRIGGERED action: tell the triggers it runs, run its block in a new
      frame above the unit's, then stop the unit if it finished or re-arm
      the action. */
  function RunAction(ms: ModuleState, cx: Context, idx: nat, key: ActionKey, ticks: seq<Tick>): (r: Processed)
    requires ActionOf(ms, idx, key)
    requires FindUnit(StopUnit(ms, idx).active, key.unitId).None?
    ensures r.ms.nextUnitId == ms.nextUnitId
    ensures |r.ms.active| <= |ms.active|
    ensures r.outcome.Raised? && cx.hasController ==> r.mode == Halt
    ensures r.outcome.Raised? ==> |r.ms.active| == |ms.active| - 1 && FindUnit(r.ms.active, key.unitId).None?
    ensures r.outcome.Done? ==> |r.ms.active| == |ms.active| || |r.ms.active| == |ms.active| - 1
    ensures r.outcome.Done? && |r.ms.active| == |ms.active| ==>
              r.ms.active == ms.active[idx := r.ms.active[idx]] &&
              r.ms.active[idx].unit == ms.active[idx].unit && !r.ms.active[idx].state.finish
    ensures r.outcome.Done? && |r.ms.active| == |ms.active| &&
            |ms.active[idx].unit.actions[key.index].body.stmts| == 0 ==>
              |r.ms.active[idx].state.frames| == |ms.active[idx].state.frames| + 1 &&
              r.ms.active[idx].state.frames[..|ms.active[idx].state.frames|] == ms.active[idx].state.frames
    ensures r.outcome.Done? && |r.ms.active| == |ms.active| &&
            |ms.active[idx].unit.actions[key.index].body.stmts| > 0 ==>
              |r.ms.active[idx].state.frames| <= 1
  {
    var u := ms.active[idx];
    var action := u.unit.actions[key.index];
    assert key == KeyOf(key.unitId, key.index);
    var prep := PrepActionRun(ms.lists, key, |action.triggers|, cx.ctl);
    if !prep.outcome.Done? then Abandon(ms.(lists := prep.lists), idx, u.state, FFIFailure, cx.hasController)
    else
      var s2 := StartBlock(u.state, action.body, None, None);
      StartBlockValid(u.state, action.body, None, None);
      CompleteAction(ms, cx, idx, key, RunBlock(s2, cx, ticks), u.state.mode)
  }

  /** The end of ProcessUnitAction once the action's block has run: halt
      and stop the unit on an exception, stop it if it finished, else
      re-arm the action and keep the unit's state. */
  function CompleteAction(ms: ModuleState, cx: Context, idx: nat, key: ActionKey, run: StepResult, mode: Mode): (r: Processed)
    requires ActionOf(ms, idx, key)
    requires FindUnit(StopUnit(ms, idx).active, key.unitId).None?
    requires (run.Next? || run.Threw?) ==> run.state.unitId == key.unitId
    ensures r.ms.nextUnitId == ms.nextUnitId
    ensures |r.ms.active| <= |ms.active|
    ensures r.outcome.Raised? && cx.hasController ==> r.mode == Halt
    ensures r.outcome.Raised? ==> |r.ms.active| == |ms.active| - 1 && FindUnit(r.ms.active, key.unitId).None?
    ensures r.outcome.Done? ==> run.Next? && (|r.ms.active| == |ms.active| || |r.ms.active| == |ms.active| - 1)
    ensures r.outcome.Done? && |r.ms.active| == |ms.active| ==>
              !run.state.finish && r.ms.active == ms.active[idx := ms.active[idx].(state := run.state)]
  {
    var u := ms.active[idx];
    var action := u.unit.actions[key.index];
    assert key == KeyOf(key.unitId, key.index);
    match run
    case Threw(s3, x) =>
      StopUnitAfterStore(ms, idx, u.(state := s3));
      Abandon(Store(ms, idx, u.(state := s3)), idx, s3, x, cx.hasController)
    case Unknown => Processed(ms, Unspecified, mode)
    case Next(s3) =>
      var ms3 := Store(ms, idx, u.(state := s3));
      if s3.finish then
        StopUnitAfterStore(ms, idx, u.(state := s3));
        Processed(StopUnit(ms3, idx), Done(()), s3.mode)
      else
        var upd := UpdateAction(ms.lists, key, action.triggers, EnvOf(s3, cx.o), cx.ctl);
        RearmWith(ms3.(lists := upd.lists), idx, s3, upd, cx.hasController)
  }

  /** The re-arm step of CompleteAction once UpdateAction has given `upd`:
      `ms4` already holds the updated lists; an exception stops the unit. */
  function RearmWith(ms4: ModuleState, idx: nat, s3: UnitState, upd: Stepped, hasController: bool): (r: Processed)
    requires idx < |ms4.active|
    requires forall a :: 0 <= a < |ms4.active[idx].unit.actions| ==> KeyOf(ms4.active[idx].state.unitId, a) in ms4.lists.flags
    ensures r.outcome.Done? <==> upd.outcome.Done?
    ensures r.outcome.Raised? <==> upd.outcome.Raised?
    ensures r.ms == (if upd.outcome.Raised? then StopUnit(ms4, idx) else ms4)
    ensures r.mode == (if upd.outcome.Raised? then HaltOnException(s3, hasController).mode else s3.mode)
  {
    match upd.outcome
    case Done(_) => Processed(ms4, Done(()), s3.mode)
    case Raised(x) => Abandon(ms4, idx, s3, x, hasController)
    case Unspecified => Processed(ms4, Unspecified, s3.mode)
  }

  /** Replacing an active unit's state by a well formed running one with
      the same id keeps the module state well formed. */
  lemma StoreValid(ms: ModuleState, idx: nat, u: ActiveUnit)
    requires ModuleValid(ms) && idx < |ms.active|
    requires u.unit == ms.active[idx].unit && u.state.unitId == ms.active[idx].state.unitId
    requires Valid(u.state) && !u.state.finish
    ensures ModuleValid(Store(ms, idx, u))
  {
    var r := Store(ms, idx, u);
    forall i, j | 0 <= i < j < |r.active|
      ensures r.active[i].state.unitId != r.active[j].state.unitId
    {
      assert r.active[i].state.unitId == ms.active[i].state.unitId;
      assert r.active[j].state.unitId == ms.active[j].state.unitId;
    }
    forall i, a | 0 <= i < |r.active| && 0 <= a < |r.active[i].unit.actions|
      ensures KeyOf(r.active[i].state.unitId, a) in r.lists.flags
    {
      assert r.active[i].state.unitId == ms.active[i].state.unitId && r.active[i].unit == ms.active[i].unit;
    }
  }

  /** Stopping a unit does not depend on the state it was stopped in. */
  lemma StopUnitAfterStore(ms: ModuleState, idx: nat, u: ActiveUnit)
    requires idx < |ms.active|
    requires u.unit == ms.active[idx].unit && u.state.unitId == ms.active[idx].state.unitId
    requires forall a :: 0 <= a < |ms.active[idx].unit.actions| ==> KeyOf(ms.active[idx].state.unitId, a) in ms.lists.flags
    ensures StopUnit(Store(ms, idx, u), idx) == StopUnit(ms, idx)
  {
    var st := Store(ms, idx, u);
    assert st.active[..idx] == ms.active[..idx];
    assert st.active[idx + 1..] == ms.active[idx + 1..];
  }

  /** Processing an action taken off the signaled list (so on no list and
      not finished) keeps the module state well formed. */
  lemma ProcessUnitActionValid(ms: ModuleState, cx: Context, key: ActionKey, mode: Mode, ticks: seq<Tick>)
    requires ModuleValid(ms)
    requires key !in ms.lists.pending && key !in ms.lists.signaled
    requires key in ms.lists.flags ==> !ms.lists.flags[key].finished
    ensures ModuleValid(ProcessUnitAction(ms, cx, key, mode, ticks).ms)
  {
    var found := FindUnit(ms.active, key.unitId);
    if found.Some? && key.index < |ms.active[found.value].unit.actions| {
      var idx := found.value;
      var u := ms.active[idx];
      var action := u.unit.actions[key.index];
      assert key == KeyOf(key.unitId, key.index);
      var s := u.state.(location := action.location, mode := mode);
      var ev := EvaluateAction(ms.lists, u.activeCount, key, |action.triggers|, cx.ctl);
      var ms1 := Store(ms.(lists := ev.lists), idx, u.(state := s, activeCount := ev.activeCount));
      EvaluatedValid(ms, cx, key, idx, mode);
      assert ActionOf(ms1, idx, key);
      StopUnitForgets(ms1, idx);
      DispatchValid(ms1, cx, idx, key, ev.status, mode, ticks);
      assert ProcessUnitAction(ms, cx, key, mode, ticks) == Dispatch(ms1, cx, idx, key, ev.status, mode, ticks);
    }
  }

  lemma DispatchValid(ms: ModuleState, cx: Context, idx: nat, key: ActionKey, status: Outcome<ActionStatus>,
                      mode: Mode, ticks: seq<Tick>)
    requires ModuleValid(ms) && ActionOf(ms, idx, key)
    requires FindUnit(StopUnit(ms, idx).active, key.unitId).None?
    requires status == Done(ActionTriggered) ==> key in ms.lists.flags && !ms.lists.flags[key].finished
    ensures ModuleValid(Dispatch(ms, cx, idx, key, status, mode, ticks).ms)
  {
    var r := Dispatch(ms, cx, idx, key, status, mode, ticks);
    if status == Done(ActionTriggered) {
      assert r == RunAction(ms, cx, idx, key, ticks);
      RunActionValid(ms, cx, idx, key, ticks);
    } else {
      StopUnitValid(ms, idx);
    }
  }

  /** After evaluation the module state, with the unit's mode and count
      updated, is still well formed, and a TRIGGERED action is pending
      and not finished. */
  lemma EvaluatedValid(ms: ModuleState, cx: Context, key: ActionKey, idx: nat, mode: Mode)
    requires ModuleValid(ms) && idx < |ms.active| && ms.active[idx].state.unitId == key.unitId
    requires key.index < |ms.active[idx].unit.actions| && key in ms.lists.flags
    requires key !in ms.lists.pending && key !in ms.lists.signaled && !ms.lists.flags[key].finished
    ensures var u := ms.active[idx];
            var action := u.unit.actions[key.index];
            var ev := EvaluateAction(ms.lists, u.activeCount, key, |action.triggers|, cx.ctl);
            var ms1 := Store(ms.(lists := ev.lists), idx,
                             u.(state := u.state.(location := action.location, mode := mode), activeCount := ev.activeCount));
            ModuleValid(ms1) && key in ms1.lists.flags &&
            (ev.status == Done(ActionTriggered) ==> !ms1.lists.flags[key].finished)
  {
    var u := ms.active[idx];
    var action := u.unit.actions[key.index];
    assert key == KeyOf(key.unitId, key.index);
    var s := u.state.(location := action.location, mode := mode);
    var ev := EvaluateAction(ms.lists, u.activeCount, key, |action.triggers|, cx.ctl);
    EvaluateKeepsLinked(ms.lists, u.activeCount, key, |action.triggers|, cx.ctl);
    ReplaceListsValid(ms, ev.lists);
    StoreValid(ms.(lists := ev.lists), idx, u.(state := s, activeCount := ev.activeCount));
  }

  lemma RunActionValid(ms: ModuleState, cx: Context, idx: nat, key: ActionKey, ticks: seq<Tick>)
    requires ModuleValid(ms) && ActionOf(ms, idx, key)
    requires FindUnit(StopUnit(ms, idx).active, key.unitId).None?
    requires key in ms.lists.flags && !ms.lists.flags[key].finished
    ensures ModuleValid(RunAction(ms, cx, idx, key, ticks).ms)
  {
    var u := ms.active[idx];
    var action := u.unit.actions[key.index];
    assert key == KeyOf(key.unitId, key.index);
    var prep := PrepActionRun(ms.lists, key, |action.triggers|, cx.ctl);
    if !prep.outcome.Done? {
      ReplaceListsValid(ms, prep.lists);
      StopUnitValid(ms.(lists := prep.lists), idx);
    } else {
      var s2 := StartBlock(u.state, action.body, None, None);
      StartBlockValid(u.state, action.body, None, None);
      CompleteActionValid(ms, cx, idx, key, RunBlock(s2, cx, ticks), u.state.mode);
    }
  }

  lemma CompleteActionValid(ms: ModuleState, cx: Context, idx: nat, key: ActionKey, run: StepResult, mode: Mode)
    requires ModuleValid(ms) && ActionOf(ms, idx, key)
    requires FindUnit(StopUnit(ms, idx).active, key.unitId).None?
    requires key in ms.lists.flags && !ms.lists.flags[key].finished
    requires (run.Next? || run.Threw?) ==> run.state.unitId == key.unitId
    requires run.Next? ==> Valid(run.state)
    ensures ModuleValid(CompleteAction(ms, cx, idx, key, run, mode).ms)
  {
    var r := CompleteAction(ms, cx, idx, key, run, mode);
    var u := ms.active[idx];
    if run.Unknown? {
      assert r.ms == ms;
    } else if run.Threw? || run.state.finish {
      StopUnitAfterStore(ms, idx, u.(state := run.state));
      assert r.ms == StopUnit(ms, idx);
      StopUnitValid(ms, idx);
    } else {
      CompleteRunningValid(ms, cx, idx, key, run.state, mode);
    }
  }

  /** The branch of CompleteActionValid where the block ran and the unit
      goes on. */
  lemma CompleteRunningValid(ms: ModuleState, cx: Context, idx: nat, key: ActionKey, s3: UnitState, mode: Mode)
    requires ModuleValid(ms) && ActionOf(ms, idx, key)
    requires FindUnit(StopUnit(ms, idx).active, key.unitId).None?
    requires key in ms.lists.flags && !ms.lists.flags[key].finished
    requires Valid(s3) && !s3.finish && s3.unitId == key.unitId
    ensures ModuleValid(CompleteAction(ms, cx, idx, key, Next(s3), mode).ms)
  {
    var r := CompleteAction(ms, cx, idx, key, Next(s3), mode);
    var u := ms.active[idx];
    UpdateRunValid(ms, cx, idx, key, s3);
    var upd := UpdateAction(ms.lists, key, u.unit.actions[key.index].triggers, EnvOf(s3, cx.o), cx.ctl);
    var ms4 := Store(ms, idx, u.(state := s3)).(lists := upd.lists);
    assert r.ms == ms4 || r.ms == StopUnit(ms4, idx);
  }

  /** Re-arming an action after its block ran keeps the module state well
      formed, whether the update succeeds or stops the unit. */
  lemma UpdateRunValid(ms: ModuleState, cx: Context, idx: nat, key: ActionKey, s3: UnitState)
    requires ModuleValid(ms) && ActionOf(ms, idx, key)
    requires key in ms.lists.flags && !ms.lists.flags[key].finished
    requires Valid(s3) && !s3.finish && s3.unitId == key.unitId
    ensures var u := ms.active[idx];
            var upd := UpdateAction(ms.lists, key, u.unit.actions[key.index].triggers, EnvOf(s3, cx.o), cx.ctl);
            var ms4 := Store(ms, idx, u.(state := s3)).(lists := upd.lists);
            ModuleValid(ms4) && ModuleValid(StopUnit(ms4, idx))
  {
    var u := ms.active[idx];
    StoreValid(ms, idx, u.(state := s3));
    var ms3 := Store(ms, idx, u.(state := s3));
    var upd := UpdateAction(ms.lists, key, u.unit.actions[key.index].triggers, EnvOf(s3, cx.o), cx.ctl);
    assert Linked(upd.lists);
    ReplaceListsValid(ms3, upd.lists);
    StopUnitValid(ms3.(lists := upd.lists), idx);
  }

  // ---------------------------------------------------------------------
  // What processing one action leaves alone

  /** The invocation ids of the active units. */
  function ActiveIds(ms: ModuleState): (ids: set<nat>)
    ensures forall id :: id in ids <==> FindUnit(ms.active, id).Some?
  {
    set i | 0 <= i < |ms.active| :: ms.active[i].state.unitId
  }

  /** Stopping a unit removes exactly its id from the active ids and
      leaves every other unit's actions as they were. */
  lemma StopUnitFrame(ms: ModuleState, idx: nat)
    requires idx < |ms.active| && Linked(ms.lists)
    requires forall a :: 0 <= a < |ms.active[idx].unit.actions| ==> KeyOf(ms.active[idx].state.unitId, a) in ms.lists.flags
    requires forall i :: 0 <= i < |ms.active| && i != idx ==> ms.active[i].state.unitId != ms.active[idx].state.unitId
    ensures ActiveIds(StopUnit(ms, idx)) == ActiveIds(ms) - {ms.active[idx].state.unitId}
    ensures forall x: ActionKey :: x.unitId != ms.active[idx].state.unitId ==> Untouched(ms.lists, StopUnit(ms, idx).lists, x)
  {
    var u := ms.active[idx];
    StopActionsUntouched(ms.lists, u.state.unitId, u.unit.actions);
    var r := StopUnit(ms, idx);
    assert r.lists == StopActions(ms.lists, u.state.unitId, u.unit.actions).0;
    DropUnitIds(ms, idx, r);
  }

  /** Taking one unit off the active list, when its id is not shared,
      removes exactly that id. */
  lemma DropUnitIds(ms: ModuleState, idx: nat, r: ModuleState)
    requires idx < |ms.active| && r.active == ms.active[..idx] + ms.active[idx + 1..]
    requires forall i :: 0 <= i < |ms.active| && i != idx ==> ms.active[i].state.unitId != ms.active[idx].state.unitId
    ensures ActiveIds(r) == ActiveIds(ms) - {ms.active[idx].state.unitId}
  {
    var u := ms.active[idx];
    forall id | id in ActiveIds(ms) - {u.state.unitId}
      ensures id in ActiveIds(r)
    {
      var i :| 0 <= i < |ms.active| && ms.active[i].state.unitId == id;
      var i' := if i < idx then i else i - 1;
      assert r.active[i'] == ms.active[i];
    }
    forall id | id in ActiveIds(r)
      ensures id in ActiveIds(ms) - {u.state.unitId}
    {
      var i :| 0 <= i < |r.active| && r.active[i].state.unitId == id;
      var i' := if i < idx then i else i + 1;
      assert r.active[i] == ms.active[i'];
    }
  }

  /** Replacing a unit's state keeps the active ids. */
  lemma StoreIds(ms: ModuleState, idx: nat, u: ActiveUnit)
    requires idx < |ms.active| && u.state.unitId == ms.active[idx].state.unitId
    ensures ActiveIds(Store(ms, idx, u)) == ActiveIds(ms)
  {
    var r := Store(ms, idx, u);
    forall id | id in ActiveIds(ms)
      ensures id in ActiveIds(r)
    {
      var i :| 0 <= i < |ms.active| && ms.active[i].state.unitId == id;
      assert r.active[i].state.unitId == id;
    }
  }

  /** Processing action `key` removes no unit it did not stop, adds no
      unit, and leaves every action of a unit still active, other than
      `key` itself, as it was. */
  ghost predicate Framed(ms: ModuleState, ms': ModuleState, key: ActionKey)
  {
    ActiveIds(ms') <= ActiveIds(ms) &&
    forall x: ActionKey :: x != key && x.unitId in ActiveIds(ms') ==> Untouched(ms.lists, ms'.lists, x)
  }

  lemma ProcessUnitActionFrame(ms: ModuleState, cx: Context, key: ActionKey, mode: Mode, ticks: seq<Tick>)
    requires ModuleValid(ms)
    requires key !in ms.lists.pending && key !in ms.lists.signaled
    requires key in ms.lists.flags ==> !ms.lists.flags[key].finished
    ensures Framed(ms, ProcessUnitAction(ms, cx, key, mode, ticks).ms, key)
  {
    var found := FindUnit(ms.active, key.unitId);
    if found.Some? && key.index < |ms.active[found.value].unit.actions| {
      var idx := found.value;
      var u := ms.active[idx];
      var action := u.unit.actions[key.index];
      assert key == KeyOf(key.unitId, key.index);
      var s := u.state.(location := action.location, mode := mode);
      var ev := EvaluateAction(ms.lists, u.activeCount, key, |action.triggers|, cx.ctl);
      var ms1 := Store(ms.(lists := ev.lists), idx, u.(state := s, activeCount := ev.activeCount));
      EvaluatedValid(ms, cx, key, idx, mode);
      OneActionUntouched(ms.lists, u.activeCount, key, |action.triggers|, cx.ctl, [], EnvOf(s, cx.o));
      StoreIds(ms.(lists := ev.lists), idx, u.(state := s, activeCount := ev.activeCount));
      assert Framed(ms, ms1, key);
      assert ActionOf(ms1, idx, key);
      StopUnitForgets(ms1, idx);
      DispatchFrame(ms1, cx, idx, key, ev.status, mode, ticks);
      FramedTrans(ms, ms1, ProcessUnitAction(ms, cx, key, mode, ticks).ms, key);
    }
  }

  lemma FramedTrans(ms1: ModuleState, ms2: ModuleState, ms3: ModuleState, key: ActionKey)
    requires Framed(ms1, ms2, key) && Framed(ms2, ms3, key)
    ensures Framed(ms1, ms3, key)
  {
    forall x: ActionKey | x != key && x.unitId in ActiveIds(ms3)
      ensures Untouched(ms1.lists, ms3.lists, x)
    {
      UntouchedTrans(ms1.lists, ms2.lists, ms3.lists, x);
    }
  }

  lemma StopUnitFramed(ms: ModuleState, idx: nat, key: ActionKey)
    requires idx < |ms.active| && Linked(ms.lists)
    requires forall a :: 0 <= a < |ms.active[idx].unit.actions| ==> KeyOf(ms.active[idx].state.unitId, a) in ms.lists.flags
    requires forall i :: 0 <= i < |ms.active| && i != idx ==> ms.active[i].state.unitId != ms.active[idx].state.unitId
    ensures Framed(ms, StopUnit(ms, idx), key)
  {
    StopUnitFrame(ms, idx);
  }

  lemma DispatchFrame(ms: ModuleState, cx: Context, idx: nat, key: ActionKey, status: Outcome<ActionStatus>,
                      mode: Mode, ticks: seq<Tick>)
    requires ModuleValid(ms) && ActionOf(ms, idx, key)
    requires FindUnit(StopUnit(ms, idx).active, key.unitId).None?
    requires status == Done(ActionTriggered) ==> key in ms.lists.flags && !ms.lists.flags[key].finished
    ensures Framed(ms, Dispatch(ms, cx, idx, key, status, mode, ticks).ms, key)
  {
    var r := Dispatch(ms, cx, idx, key, status, mode, ticks);
    if status == Done(ActionTriggered) {
      RunActionFrame(ms, cx, idx, key, ticks);
    } else {
      KeepOrStopFramed(ms, idx, key, r.ms);
    }
  }

  /** Keeping the module state or stopping the unit at `idx` leaves every
      other action of the remaining units as it was. */
  lemma KeepOrStopFramed(ms: ModuleState, idx: nat, key: ActionKey, ms': ModuleState)
    requires ModuleValid(ms) && ActionOf(ms, idx, key)
    requires ms' == ms || ms' == StopUnit(ms, idx)
    ensures Framed(ms, ms', key)
  {
    StopUnitFramed(ms, idx, key);
    assert Framed(ms, ms, key);
  }

  lemma RunActionFrame(ms: ModuleState, cx: Context, idx: nat, key: ActionKey, ticks: seq<Tick>)
    requires ModuleValid(ms) && ActionOf(ms, idx, key)
    requires FindUnit(StopUnit(ms, idx).active, key.unitId).None?
    requires key in ms.lists.flags && !ms.lists.flags[key].finished
    ensures Framed(ms, RunAction(ms, cx, idx, key, ticks).ms, key)
  {
    var u := ms.active[idx];
    var action := u.unit.actions[key.index];
    assert key == KeyOf(key.unitId, key.index);
    var prep := PrepActionRun(ms.lists, key, |action.triggers|, cx.ctl);
    OneActionUntouched(ms.lists, 0, key, |action.triggers|, cx.ctl, [], EnvOf(u.state, cx.o));
    if !prep.outcome.Done? {
      AbandonFramed(ms, idx, key, prep.lists);
    } else {
      var s2 := StartBlock(u.state, action.body, None, None);
      StartBlockValid(u.state, action.body, None, None);
      CompleteActionFrame(ms, cx, idx, key, RunBlock(s2, cx, ticks), u.state.mode);
    }
  }

  /** Replacing the lists by ones that differ only at `key`, then stopping
      the unit, leaves every other action of the remaining units as it was. */
  lemma AbandonFramed(ms: ModuleState, idx: nat, key: ActionKey, lists: Lists)
    requires ModuleValid(ms) && ActionOf(ms, idx, key) && Linked(lists)
    requires lists.flags.Keys == ms.lists.flags.Keys
    requires forall x :: x != key ==> Untouched(ms.lists, lists, x)
    ensures Framed(ms, StopUnit(ms.(lists := lists), idx), key)
  {
    var ms2 := ms.(lists := lists);
    ReplaceListsValid(ms, lists);
    StopUnitFrame(ms2, idx);
    assert Framed(ms, ms2, key);
    FramedTrans(ms, ms2, StopUnit(ms2, idx), key);
  }

  lemma CompleteActionFrame(ms: ModuleState, cx: Context, idx: nat, key: ActionKey, run: StepResult, mode: Mode)
    requires ModuleValid(ms) && ActionOf(ms, idx, key)
    requires FindUnit(StopUnit(ms, idx).active, key.unitId).None?
    requires (run.Next? || run.Threw?) ==> run.state.unitId == key.unitId
    requires key in ms.lists.flags && !ms.lists.flags[key].finished
    requires run.Next? ==> Valid(run.state)
    ensures Framed(ms, CompleteAction(ms, cx, idx, key, run, mode).ms, key)
  {
    var r := CompleteAction(ms, cx, idx, key, run, mode);
    var u := ms.active[idx];
    assert key == KeyOf(key.unitId, key.index);
    if run.Unknown? {
      assert r.ms == ms;
      assert Framed(ms, ms, key);
    } else if run.Threw? || run.state.finish {
      StopStoredFramed(ms, idx, key, run.state);
    } else {
      UpdateRunValid(ms, cx, idx, key, run.state);
      var upd := UpdateAction(ms.lists, key, u.unit.actions[key.index].triggers, EnvOf(run.state, cx.o), cx.ctl);
      OneActionUntouched(ms.lists, 0, key, 0, cx.ctl, u.unit.actions[key.index].triggers, EnvOf(run.state, cx.o));
      RearmFramed(ms, idx, key, run.state, upd, cx.hasController);
    }
  }

  /** Stopping the unit whose state was just replaced leaves every other
      action of the remaining units as it was. */
  lemma StopStoredFramed(ms: ModuleState, idx: nat, key: ActionKey, s3: UnitState)
    requires ModuleValid(ms) && ActionOf(ms, idx, key) && s3.unitId == key.unitId
    ensures Framed(ms, StopUnit(ms, idx), key)
    ensures StopUnit(Store(ms, idx, ms.active[idx].(state := s3)), idx) == StopUnit(ms, idx)
  {
    StopUnitFramed(ms, idx, key);
    StopUnitAfterStore(ms, idx, ms.active[idx].(state := s3));
  }

  /** Re-arming the action leaves every other action of the remaining
      units as it was. */
  lemma RearmFramed(ms: ModuleState, idx: nat, key: ActionKey, s3: UnitState, upd: Stepped, hasController: bool)
    requires ActionOf(ms, idx, key) && s3.unitId == key.unitId
    requires ModuleValid(Store(ms, idx, ms.active[idx].(state := s3)).(lists := upd.lists))
    requires upd.lists.flags.Keys == ms.lists.flags.Keys
    requires forall x :: x != key ==> Untouched(ms.lists, upd.lists, x)
    ensures Framed(ms, RearmWith(Store(ms, idx, ms.active[idx].(state := s3)).(lists := upd.lists), idx, s3, upd, hasController).ms, key)
  {
    var u := ms.active[idx];
    var ms4 := Store(ms, idx, u.(state := s3)).(lists := upd.lists);
    StoreIds(ms, idx, u.(state := s3));
    assert Framed(ms, ms4, key);
    StopUnitFramed(ms4, idx, key);
    FramedTrans(ms, ms4, StopUnit(ms4, idx), key);
  }
}
