/** Interpreting a module (ts/api/tsint/source/module.c).

    TSInt_InterpretModule begins every plugin group the module refers to,
    invokes the main unit, and then, while any unit is active, sleeps
    until an action is signaled, takes the signaled list as a batch and
    processes its actions in order. It ends every group, with the
    exception code when a unit raised or a group failed to begin.

    Plugin callbacks, the abort signal and the signals that arrive while
    the module sleeps are given by a World; a bound on the number of
    rounds stands in for a module that never stops. */
module IntModule {
  import opened Wrappers
  import opened Def
  import opened IntValue
  import opened IntBlock
  import opened IntAction
  import opened IntUnit

  /** TSINT_ERROR_NONE, _EXCEPTION and _BEGIN_GROUP. */
  const ErrorNone: int := 0
  const ErrorException: int := -1
  const ErrorBeginGroup: int := -3

  /** TSFFI_MODULE_SLEEPING and TSFFI_MODULE_RUNNING. */
  const Sleeping: nat := 0
  const Running: nat := 1

  /** A referenced plugin group: which of its begin, state and end
      callbacks it registers. */
  datatype Group = Group(hasBegin: bool, hasState: bool, hasEnd: bool)

  /** The code a group's end callback is handed: TSFFI_ERROR_NONE or
      TSFFI_ERROR_EXCEPTION. */
  datatype EndCode = EndNone | EndException

  /** One call into a group, by the group's position in the module's
      list of referenced groups. */
  datatype GroupCall = Begin(group: nat) | StateChange(group: nat, state: nat) | End(group: nat, code: EndCode)

  /** Everything outside the interpreter: which begin callbacks fail,
      which state callbacks fail (by round, group and state), the
      actions plugins signal while the module sleeps in each round,
      whether the abort signal is set when it listens, the ticks the
      main unit's run and each processed action's run meet, and the
      answers the trigger plugins give each processed action (by round
      and position in the batch; the main unit's run asks the context's
      controller). */
  datatype World = World(
    beginFails: nat -> bool,
    stateFails: (nat, nat, nat) -> bool,
    signals: nat -> seq<ActionKey>,
    aborted: nat -> bool,
    mainTicks: seq<Tick>,
    actionTicks: (nat, nat) -> seq<Tick>,
    controllers: (nat, nat) -> Controller)

  // ---------------------------------------------------------------------
  // Group callbacks

  /** The result of a pass over the groups: the calls made and the
      position of the group whose callback failed, if one did. */
  datatype Pass = Pass(calls: seq<GroupCall>, failed: Option<nat>)

  /** The begin loop from group `g` on: call each begin callback in order
      and stop at the first that fails. */
  function BeginGroups(groups: seq<Group>, w: World, g: nat): (r: Pass)
    requires g <= |groups|
    decreases |groups| - g
    ensures forall c :: c in r.calls ==> c.Begin?
    ensures r.failed.Some? <==> exists f :: g <= f < |groups| && groups[f].hasBegin && w.beginFails(f)
    ensures r.failed.Some? ==>
              var f := r.failed.value;
              g <= f < |groups| && groups[f].hasBegin && w.beginFails(f) &&
              forall e :: g <= e < f && groups[e].hasBegin ==> !w.beginFails(e)
    ensures forall e: nat :: Begin(e) in r.calls <==>
              g <= e < |groups| && groups[e].hasBegin && (r.failed.None? || e <= r.failed.value)
  {
    if g == |groups| then Pass([], None)
    else if groups[g].hasBegin && w.beginFails(g) then Pass([Begin(g)], Some(g))
    else
      var rest := BeginGroups(groups, w, g + 1);
      Pass((if groups[g].hasBegin then [Begin(g)] else []) + rest.calls, rest.failed)
  }

  /** ChangeState from group `g` on: tell each group with a state
      callback the module's new state, stopping at the first that fails. */
  function ChangeState(groups: seq<Group>, w: World, round: nat, state: nat, g: nat): (r: Pass)
    requires g <= |groups|
    decreases |groups| - g
    ensures forall c :: c in r.calls ==> c.StateChange? && c.state == state
    ensures r.failed.None? <==> forall e :: g <= e < |groups| && groups[e].hasState ==> !w.stateFails(round, e, state)
    ensures r.failed.None? ==> forall e: nat :: StateChange(e, state) in r.calls <==> g <= e < |groups| && groups[e].hasState
    ensures r.failed.Some? ==>
              var f := r.failed.value;
              g <= f < |groups| && groups[f].hasState && w.stateFails(round, f, state) &&
              |r.calls| > 0 && r.calls[|r.calls| - 1] == StateChange(f, state)
  {
    if g == |groups| then Pass([], None)
    else if groups[g].hasState && w.stateFails(round, g, state) then Pass([StateChange(g, state)], Some(g))
    else
      var rest := ChangeState(groups, w, round, state, g + 1);
      Pass((if groups[g].hasState then [StateChange(g, state)] else []) + rest.calls, rest.failed)
  }

  /** The end loops: call the end callback of every group from `g` up to
      (not including) `stop`, handing each the same code. */
  function EndGroups(groups: seq<Group>, g: nat, stop: nat, code: EndCode): (r: seq<GroupCall>)
    requires g <= stop <= |groups|
    decreases stop - g
    ensures forall e: nat, c :: End(e, c) in r <==> g <= e < stop && groups[e].hasEnd && c == code
    ensures forall c :: c in r ==> c.End?
  {
    if g == stop then []
    else (if groups[g].hasEnd then [End(g, code)] else []) + EndGroups(groups, g + 1, stop, code)
  }

  // ---------------------------------------------------------------------
  // Signals and the batch of signaled actions

  /** The signals plugins raise while the module sleeps, applied in order;
      a signal names an action that has its flags (an action that was
      stopped keeps them, finished, and ignores the signal). */
  function ApplySignals(l: Lists, keys: seq<ActionKey>): (r: Lists)
    decreases |keys|
    ensures r.flags.Keys == l.flags.Keys
    ensures forall x :: x in l.flags ==> r.flags[x].finished == l.flags[x].finished
    ensures Linked(l) ==> Linked(r)
    ensures Linked(l) ==> forall x :: x in l.signaled ==> x in r.signaled
    ensures Linked(l) ==>
              forall i :: (0 <= i < |keys| && keys[i] in l.flags && !l.flags[keys[i]].finished &&
                           (!l.flags[keys[i]].signaled || keys[i] in l.signaled)) ==> keys[i] in r.signaled
  {
    if |keys| == 0 then l
    else
      var k := keys[0];
      assert forall i :: 1 <= i < |keys| ==> keys[i] == keys[1..][i - 1];
      if k in l.flags then
        SignalStep(l, k);
        ApplySignals(SignalAction(l, k), keys[1..])
      else ApplySignals(l, keys[1..])
  }

  /** One signal keeps well-linked lists well linked and leaves a live
      action on the signaled list. */
  lemma SignalStep(l: Lists, k: ActionKey)
    requires k in l.flags
    ensures Linked(l) ==> Linked(SignalAction(l, k)) && forall x :: x in l.signaled ==> x in SignalAction(l, k).signaled
    ensures Linked(l) && !l.flags[k].finished && (!l.flags[k].signaled || k in l.signaled) ==>
              k in SignalAction(l, k).signaled
  {
    if Linked(l) { SignalKeepsLinked(l, k); }
  }

  /** The batch of one round: the signaled list, detached; the lists keep
      only the pending actions. Every action of the batch is on no list
      and not finished (it keeps its SIGNALED flag, so a signal during the
      walk leaves it alone). */
  function TakeSignaled(l: Lists): (r: (seq<ActionKey>, Lists))
    ensures r.0 == l.signaled && r.1.signaled == [] && r.1.pending == l.pending && r.1.flags == l.flags
    ensures Linked(l) ==> Linked(r.1) && NoDup(r.0)
    ensures Linked(l) ==>
              forall i :: 0 <= i < |r.0| ==>
                r.0[i] !in r.1.pending && r.0[i] !in r.1.signaled &&
                r.0[i] in r.1.flags && !r.1.flags[r.0[i]].finished
  {
    (l.signaled, l.(signaled := []))
  }

  /** The walk may go on: the module state is well formed, the batch has
      no action twice, and each remaining action whose unit is still
      active is on no list and not finished. */
  predicate WalkReady(ms: ModuleState, batch: seq<ActionKey>)
  {
    ModuleValid(ms) && NoDup(batch) &&
    forall i :: 0 <= i < |batch| && FindUnit(ms.active, batch[i].unitId).Some? ==>
      batch[i] !in ms.lists.pending && batch[i] !in ms.lists.signaled &&
      (batch[i] in ms.lists.flags ==> !ms.lists.flags[batch[i]].finished)
  }

  /** The inner loop of a round: process each action of the batch in
      order, handing the mode from one to the next, and stop at the first
      that does not complete. Position `pos` picks the ticks the action's
      run meets and the plugin answers its triggers get. */
  function Walk(ms: ModuleState, cx: Context, w: World, round: nat, batch: seq<ActionKey>, pos: nat, mode: Mode): (r: Processed)
    requires WalkReady(ms, batch)
    decreases |batch|
    ensures ModuleValid(r.ms)
    ensures r.ms.nextUnitId == ms.nextUnitId
    ensures |r.ms.active| <= |ms.active|
    ensures r.outcome.Raised? && cx.hasController ==> r.mode == Halt
    ensures |batch| == 0 ==> r == Processed(ms, Done(()), mode)
  {
    if |batch| == 0 then Processed(ms, Done(()), mode)
    else
      var k := batch[0];
      var cx1 := cx.(ctl := w.controllers(round, pos));
      var p := ProcessUnitAction(ms, cx1, k, mode, w.actionTicks(round, pos));
      WalkStep(ms, cx1, batch, mode, w.actionTicks(round, pos));
      if p.outcome.Done? then Walk(p.ms, cx, w, round, batch[1..], pos + 1, p.mode)
      else p
  }

  /** After the batch's first action is processed the rest of the batch
      may still be walked. */
  lemma WalkStep(ms: ModuleState, cx: Context, batch: seq<ActionKey>, mode: Mode, ticks: seq<Tick>)
    requires WalkReady(ms, batch) && |batch| > 0
    ensures var p := ProcessUnitAction(ms, cx, batch[0], mode, ticks);
            p.outcome.Done? ==> WalkReady(p.ms, batch[1..])
    ensures ModuleValid(ProcessUnitAction(ms, cx, batch[0], mode, ticks).ms)
  {
    var k := batch[0];
    if FindUnit(ms.active, k.unitId).Some? {
      ProcessUnitActionValid(ms, cx, k, mode, ticks);
      ProcessUnitActionFrame(ms, cx, k, mode, ticks);
      WalkFrame(ms, ProcessUnitAction(ms, cx, k, mode, ticks).ms, k, batch);
    }
  }

  lemma WalkFrame(ms: ModuleState, ms': ModuleState, k: ActionKey, batch: seq<ActionKey>)
    requires WalkReady(ms, batch) && |batch| > 0 && k == batch[0]
    requires ModuleValid(ms') && Framed(ms, ms', k)
    ensures WalkReady(ms', batch[1..])
  {
    var rest := batch[1..];
    forall i | 0 <= i < |rest| && FindUnit(ms'.active, rest[i].unitId).Some?
      ensures rest[i] !in ms'.lists.pending && rest[i] !in ms'.lists.signaled &&
              (rest[i] in ms'.lists.flags ==> !ms'.lists.flags[rest[i]].finished)
    {
      var x := rest[i];
      assert x == batch[i + 1] && x != k;
      assert x.unitId in ActiveIds(ms');
      assert Untouched(ms.lists, ms'.lists, x);
    }
  }

  // ---------------------------------------------------------------------
  // The event loop

  /** How the event loop stopped: no unit is active, an exception (a
      failing state callback, the abort signal, or a unit's exception),
      or undefined behaviour in a unit. */
  datatype LoopEnd = Emptied | Excepted | Undefined

  datatype Looped = Looped(ms: ModuleState, calls: seq<GroupCall>, end: LoopEnd, mode: Mode)

  /** The event loop from round `round`, for at most `rounds` more rounds
      (None: still running after them). A round tells the groups the
      module sleeps, listens (the abort signal raises HALT), tells them it
      runs, takes the batch of signaled actions and walks it. */
  function EventLoop(ms: ModuleState, cx: Context, groups: seq<Group>, w: World, round: nat, mode: Mode,
                     rounds: nat): (r: Option<Looped>)
    requires ModuleValid(ms)
    decreases rounds
    ensures r.Some? ==> ModuleValid(r.value.ms) && r.value.ms.nextUnitId == ms.nextUnitId
    ensures r.Some? && r.value.end == Emptied ==> |r.value.ms.active| == 0
    ensures |ms.active| == 0 ==> r == Some(Looped(ms, [], Emptied, mode))
    ensures r.Some? ==> forall c :: c in r.value.calls ==> c.StateChange?
  {
    if |ms.active| == 0 then Some(Looped(ms, [], Emptied, mode))
    else if rounds == 0 then None
    else
      var sleep := ChangeState(groups, w, round, Sleeping, 0);
      if sleep.failed.Some? then Some(Looped(ms, sleep.calls, Excepted, mode))
      else if w.aborted(round) then Some(Looped(ms, sleep.calls, Excepted, mode))
      else
        var wake := ChangeState(groups, w, round, Running, 0);
        if wake.failed.Some? then Some(Looped(ms, sleep.calls + wake.calls, Excepted, mode))
        else
          var signaled := ApplySignals(ms.lists, w.signals(round));
          var taken := TakeSignaled(signaled);
          ReplaceListsValid(ms, taken.1);
          var ms1 := ms.(lists := taken.1);
          assert WalkReady(ms1, taken.0);
          var walked := Walk(ms1, cx, w, round, taken.0, 0, mode);
          var calls := sleep.calls + wake.calls;
          match walked.outcome
          case Raised(_) => Some(Looped(walked.ms, calls, Excepted, walked.mode))
          case Unspecified => Some(Looped(walked.ms, calls, Undefined, walked.mode))
          case Done(_) =>
            match EventLoop(walked.ms, cx, groups, w, round + 1, walked.mode, rounds - 1)
            case None => None
            case Some(next) => Some(next.(calls := calls + next.calls))
  }

  /** The exception exit: stop the newest active unit until none is
      active. */
  function StopAll(ms: ModuleState): (r: ModuleState)
    requires ModuleValid(ms)
    decreases |ms.active|
    ensures ModuleValid(r) && |r.active| == 0
    ensures r.nextUnitId == ms.nextUnitId
    ensures r.lists.flags.Keys == ms.lists.flags.Keys
  {
    if |ms.active| == 0 then ms
    else
      StopUnitValid(ms, 0);
      StopAll(StopUnit(ms, 0))
  }

  // ---------------------------------------------------------------------
  // TSInt_InterpretModule

  /** The mode the main unit starts in. */
  function StartMode(hasController: bool): (m: Mode)
    ensures m == Run <==> !hasController
    ensures m != Run ==> m == StepInto
  {
    if hasController then StepInto else Run
  }

  /** The module state before the main unit runs: ids start at 1, no unit
      is active and both lists are empty. */
  function InitialState(): (ms: ModuleState)
    ensures ModuleValid(ms) && |ms.active| == 0 && ms.nextUnitId == 1
    ensures ms.lists.pending == [] && ms.lists.signaled == []
  {
    ModuleState(1, [], Lists([], [], map[]))
  }

  /** How an interpretation ends: the error code, the main unit's output
      (when it completed and one was asked for), every call into the
      groups and the final module state; or undefined behaviour; or still
      running after the bound on rounds. */
  datatype Interpreted =
    | Ended(error: int, output: Option<Value>, calls: seq<GroupCall>, ms: ModuleState)
    | Undetermined
    | StillRunning

  /** No end callback among the calls. */
  predicate NoEnds(calls: seq<GroupCall>)
  {
    forall i :: 0 <= i < |calls| ==> !calls[i].End?
  }

  /** The end callbacks come after every other call. */
  predicate EndsLast(calls: seq<GroupCall>)
  {
    forall i, j :: 0 <= i < j < |calls| && calls[i].End? ==> calls[j].End?
  }

  /** Exactly the groups with an end callback are ended, each once with
      `code`. */
  ghost predicate EndedWith(calls: seq<GroupCall>, groups: seq<Group>, code: EndCode)
  {
    forall e: nat, c :: End(e, c) in calls <==> e < |groups| && groups[e].hasEnd && c == code
  }

  /** TSInt_InterpretModule: begin the groups, invoke the main unit in
      the start mode with ids from 1, run the event loop, and end the
      groups. */
  function InterpretModule(main: Unit, args: seq<Value>, wantOutput: bool, cx: Context, groups: seq<Group>,
                           w: World, rounds: nat): (r: Interpreted)
    ensures r.Ended? ==> r.error == ErrorNone || r.error == ErrorException || r.error == ErrorBeginGroup
    ensures r.Ended? ==> ModuleValid(r.ms) && |r.ms.active| == 0 && EndsLast(r.calls)
    ensures r.Ended? && r.error == ErrorNone ==> EndedWith(r.calls, groups, EndNone)
    ensures r.Ended? && r.error == ErrorException ==> EndedWith(r.calls, groups, EndException)
    ensures r.Ended? && r.error == ErrorBeginGroup ==> r.output.None? && r.ms == InitialState()
  {
    var begun := BeginGroups(groups, w, 0);
    assert NoEnds(begun.calls) by {
      assert forall i :: 0 <= i < |begun.calls| ==> begun.calls[i] in begun.calls;
    }
    match begun.failed
    case Some(f) =>
      var ends := EndGroups(groups, 0, f, EndException);
      ConcatEnds(begun.calls, ends);
      Ended(ErrorBeginGroup, None, begun.calls + ends, InitialState())
    case None =>
      RunMain(main, args, wantOutput, cx, groups, w, rounds, begun.calls)
  }

  /** The main unit's invocation, after every group has begun. */
  function RunMain(main: Unit, args: seq<Value>, wantOutput: bool, cx: Context, groups: seq<Group>,
                   w: World, rounds: nat, calls: seq<GroupCall>): (r: Interpreted)
    requires NoEnds(calls)
    ensures r.Ended? ==> (r.error == ErrorNone || r.error == ErrorException)
    ensures r.Ended? ==> |r.calls| >= |calls| && r.calls[..|calls|] == calls
    ensures r.Ended? ==> ModuleValid(r.ms) && |r.ms.active| == 0 && EndsLast(r.calls)
    ensures r.Ended? && r.error == ErrorNone ==> EndedWith(r.calls, groups, EndNone)
    ensures r.Ended? && r.error == ErrorException ==> EndedWith(r.calls, groups, EndException)
  {
    var ms0 := InitialState();
    var mode := StartMode(cx.hasController);
    InvokeUnitValid(ms0, cx, main, args, mode, wantOutput, w.mainTicks);
    var inv := InvokeUnit(ms0, cx, main, args, mode, wantOutput, w.mainTicks);
    match inv.outcome
    case Unspecified => Undetermined
    case Raised(_) => Unwind(inv.ms, None, calls, groups)
    case Done(out) => AfterMain(inv.ms, cx, groups, w, inv.mode, rounds, out, calls)
  }

  /** The event loop and the end of the module, after the main unit
      returned. */
  function AfterMain(ms: ModuleState, cx: Context, groups: seq<Group>, w: World, mode: Mode, rounds: nat,
                     out: Option<Value>, calls: seq<GroupCall>): (r: Interpreted)
    requires ModuleValid(ms) && NoEnds(calls)
    ensures r.Ended? ==> (r.error == ErrorNone || r.error == ErrorException) && r.output == out
    ensures r.Ended? ==> |r.calls| >= |calls| && r.calls[..|calls|] == calls
    ensures r.Ended? ==> ModuleValid(r.ms) && |r.ms.active| == 0 && EndsLast(r.calls)
    ensures r.Ended? && r.error == ErrorNone ==> EndedWith(r.calls, groups, EndNone)
    ensures r.Ended? && r.error == ErrorException ==> EndedWith(r.calls, groups, EndException)
  {
    match EventLoop(ms, cx, groups, w, 0, mode, rounds)
    case None => StillRunning
    case Some(looped) =>
      var before := calls + looped.calls;
      assert NoEnds(before) by {
        assert forall i :: |calls| <= i < |before| ==> before[i] == looped.calls[i - |calls|];
        assert forall i :: 0 <= i < |looped.calls| ==> looped.calls[i] in looped.calls;
      }
      assert before[..|calls|] == calls;
      match looped.end
      case Undefined => Undetermined
      case Excepted => Unwind(looped.ms, out, before, groups)
      case Emptied =>
        var ends := EndGroups(groups, 0, |groups|, EndNone);
        ConcatEnds(before, ends);
        assert (before + ends)[..|calls|] == calls;
        Ended(ErrorNone, out, before + ends, looped.ms)
  }

  /** The unit_exception exit: stop every active unit, then end every
      group with the exception code. */
  function Unwind(ms: ModuleState, out: Option<Value>, calls: seq<GroupCall>, groups: seq<Group>): (r: Interpreted)
    requires ModuleValid(ms) && NoEnds(calls)
    ensures r.Ended? && r.error == ErrorException && r.output == out
    ensures ModuleValid(r.ms) && |r.ms.active| == 0
    ensures |r.calls| >= |calls| && r.calls[..|calls|] == calls
    ensures EndsLast(r.calls) && EndedWith(r.calls, groups, EndException)
  {
    var ends := EndGroups(groups, 0, |groups|, EndException);
    ConcatEnds(calls, ends);
    assert (calls + ends)[..|calls|] == calls;
    Ended(ErrorException, out, calls + ends, StopAll(ms))
  }

  /** Calls with no end callback followed by end callbacks only: the ends
      come last and are exactly those of the second part. */
  lemma ConcatEnds(calls: seq<GroupCall>, ends: seq<GroupCall>)
    requires NoEnds(calls) && forall c :: c in ends ==> c.End?
    ensures EndsLast(calls + ends)
    ensures forall c: GroupCall :: c.End? ==> (c in calls + ends <==> c in ends)
  {
    var all := calls + ends;
    forall i, j | 0 <= i < j < |all| && all[i].End?
      ensures all[j].End?
    {
      assert i >= |calls|;
      assert all[j] == ends[j - |calls|] && ends[j - |calls|] in ends;
    }
    forall c: GroupCall | c.End? && c in all
      ensures c in ends
    {
      var i :| 0 <= i < |all| && all[i] == c;
      assert i >= |calls|;
      assert ends[i - |calls|] == c;
    }
  }

  // ---------------------------------------------------------------------
  // What an interpretation promises

  /** A group that fails to begin: the result is ERROR_BEGIN_GROUP, no
      unit runs, the groups after it are not begun, and exactly the
      groups before it that have an end callback are ended, each with the
      exception code. */
  lemma BeginFailureUnwinds(main: Unit, args: seq<Value>, wantOutput: bool, cx: Context, groups: seq<Group>,
                            w: World, rounds: nat, f: nat)
    requires f < |groups| && groups[f].hasBegin && w.beginFails(f)
    requires forall e :: 0 <= e < f && groups[e].hasBegin ==> !w.beginFails(e)
    ensures var r := InterpretModule(main, args, wantOutput, cx, groups, w, rounds);
            r.Ended? && r.error == ErrorBeginGroup && r.ms == InitialState() &&
            (forall e: nat, c :: End(e, c) in r.calls <==> e < f && groups[e].hasEnd && c == EndException) &&
            (forall e: nat :: Begin(e) in r.calls <==> e <= f && groups[e].hasBegin)
  {
    var begun := BeginGroups(groups, w, 0);
    assert begun.failed == Some(f);
    var ends := EndGroups(groups, 0, f, EndException);
    forall e: nat ensures Begin(e) in begun.calls + ends <==> Begin(e) in begun.calls {
      assert Begin(e) !in ends;
    }
  }

  /** The abort signal seen in a round, with a unit still active and every
      SLEEPING callback succeeding, ends the event loop with an exception
      after telling every group with a state callback that the module
      sleeps. */
  lemma AbortEndsWithException(ms: ModuleState, cx: Context, groups: seq<Group>, w: World, round: nat, mode: Mode,
                               rounds: nat)
    requires ModuleValid(ms) && |ms.active| > 0 && rounds > 0 && w.aborted(round)
    requires forall e :: 0 <= e < |groups| && groups[e].hasState ==> !w.stateFails(round, e, Sleeping)
    ensures var r := EventLoop(ms, cx, groups, w, round, mode, rounds);
            r.Some? && r.value.end == Excepted && r.value.ms == ms &&
            forall e: nat :: StateChange(e, Sleeping) in r.value.calls <==> e < |groups| && groups[e].hasState
  {
  }
}
