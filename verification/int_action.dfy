/** Action bookkeeping of the interpreter (ts/api/tsint/source/action.c).

    Every live action of every running unit sits on one of two lists of the
    module state: pending (waiting for a plugin to signal it) or signaled
    (waiting for the module loop). The C lists are doubly linked with the
    head as the most recent insertion; here they are sequences, head first.
    A plugin drives each trigger of an action through its action
    controller; the controller is a parameter. */
module IntAction {
  import opened Wrappers
  import opened DefTypes
  import opened Def
  import opened IntValue
  import opened IntFFI
  import opened ExpEval

  /** An action state: the invocation id of its unit and its position in
      the unit's action list. */
  datatype ActionKey = ActionKey(unitId: nat, index: nat)

  /** TSINT_ACTION_STATE_FLAG_SIGNALED and _FINISHED. */
  datatype Flags = Flags(signaled: bool, finished: bool)

  datatype Lists = Lists(pending: seq<ActionKey>, signaled: seq<ActionKey>, flags: map<ActionKey, Flags>)

  predicate NoDup(q: seq<ActionKey>)
  {
    forall i, j :: 0 <= i < j < |q| ==> q[i] != q[j]
  }

  /** The lists are well linked: no action twice, none on both lists, and
      each list's actions carry the flags of that list and are not
      finished. */
  predicate Linked(l: Lists)
  {
    NoDup(l.pending) && NoDup(l.signaled) &&
    (forall x :: x in l.pending ==> x !in l.signaled) &&
    (forall x :: x in l.pending ==> x in l.flags && !l.flags[x].signaled && !l.flags[x].finished) &&
    (forall x :: x in l.signaled ==> x in l.flags && l.flags[x].signaled && !l.flags[x].finished)
  }

  /** A list with the action unlinked. */
  function Without(q: seq<ActionKey>, k: ActionKey): (r: seq<ActionKey>)
    ensures forall x :: x in r <==> x in q && x != k
    ensures k !in q ==> r == q
    ensures NoDup(q) ==> NoDup(r)
  {
    if |q| == 0 then []
    else
      var rest := Without(q[1..], k);
      if q[0] == k then rest
      else
        var r := [q[0]] + rest;
        assert forall i :: 1 <= i < |r| ==> r[i] == rest[i - 1];
        assert NoDup(q) ==> q[0] !in q[1..];
        r
  }

  /** An action at the head of a list and then unlinked leaves the list as
      it was. */
  lemma PushThenUnlink(q: seq<ActionKey>, k: ActionKey)
    requires k !in q
    ensures Without([k] + q, k) == q
  {
    assert ([k] + q)[1..] == q;
  }

  /** SignalAction, the callback a plugin calls: an action neither signaled
      nor finished moves from pending to the head of signaled; otherwise
      nothing happens. */
  function SignalAction(l: Lists, k: ActionKey): (r: Lists)
    requires k in l.flags
    ensures l.flags[k].signaled || l.flags[k].finished ==> r == l
    ensures !l.flags[k].signaled && !l.flags[k].finished ==>
              r.signaled == [k] + l.signaled && r.pending == Without(l.pending, k) &&
              r.flags == l.flags[k := Flags(true, false)]
  {
    var f := l.flags[k];
    if f.signaled || f.finished then l
    else Lists(Without(l.pending, k), [k] + l.signaled, l.flags[k := f.(signaled := true)])
  }

  /** AddToPending: clear SIGNALED and push on pending, unlinking nothing. */
  function AddToPending(l: Lists, k: ActionKey): (r: Lists)
    requires k in l.flags
    ensures r.pending == [k] + l.pending && r.signaled == l.signaled
    ensures r.flags == l.flags[k := l.flags[k].(signaled := false)]
  {
    Lists([k] + l.pending, l.signaled, l.flags[k := l.flags[k].(signaled := false)])
  }

  /** The list the flags say the action is on: unlinking uses it when the
      action is at the head. */
  function Unlink(l: Lists, k: ActionKey): (r: Lists)
    requires k in l.flags
    ensures r.flags == l.flags
    ensures l.flags[k].signaled ==> r.pending == l.pending && r.signaled == Without(l.signaled, k)
    ensures !l.flags[k].signaled ==> r.signaled == l.signaled && r.pending == Without(l.pending, k)
  {
    if l.flags[k].signaled then l.(signaled := Without(l.signaled, k))
    else l.(pending := Without(l.pending, k))
  }

  /** MoveToPending: unlink the action from its list, push it on pending,
      clear SIGNALED. */
  function MoveToPending(l: Lists, k: ActionKey): (r: Lists)
    requires k in l.flags
    ensures |r.pending| > 0 && r.pending[0] == k && r.flags == l.flags[k := l.flags[k].(signaled := false)]
    ensures Linked(l) && !l.flags[k].finished ==> Linked(r) && k !in r.signaled
    ensures forall x :: x != k ==> (x in r.pending <==> x in l.pending) && (x in r.signaled <==> x in l.signaled)
  {
    var u := Unlink(l, k);
    var r := Lists([k] + u.pending, u.signaled, l.flags[k := l.flags[k].(signaled := false)]);
    assert Linked(l) && !l.flags[k].finished ==> k !in u.signaled && k !in u.pending;
    r
  }

  /** RemoveFromAll: an action not yet finished is marked FINISHED and
      unlinked; a finished one is left alone. */
  function RemoveFromAll(l: Lists, k: ActionKey): (r: Lists)
    requires k in l.flags
    ensures l.flags[k].finished ==> r == l
    ensures r.flags == l.flags[k := l.flags[k].(finished := true)]
    ensures Linked(l) ==> Linked(r) && k !in r.pending && k !in r.signaled
    ensures forall x :: x != k ==> (x in r.pending <==> x in l.pending) && (x in r.signaled <==> x in l.signaled)
  {
    if l.flags[k].finished then l
    else
      var u := Unlink(l, k);
      u.(flags := l.flags[k := l.flags[k].(finished := true)])
  }

  /** A signal keeps the lists well linked and puts a live action on the
      signaled list. */
  lemma SignalKeepsLinked(l: Lists, k: ActionKey)
    requires Linked(l) && k in l.flags
    ensures Linked(SignalAction(l, k))
    ensures !l.flags[k].finished ==> k in SignalAction(l, k).signaled || l.flags[k].signaled
  {
  }

  /** Signalling twice is signalling once. */
  lemma SignalIdempotent(l: Lists, k: ActionKey)
    requires k in l.flags
    ensures SignalAction(SignalAction(l, k), k) == SignalAction(l, k)
  {
  }

  /** Pushing an action that is on neither list and not finished keeps the
      lists well linked. */
  lemma AddToPendingKeepsLinked(l: Lists, k: ActionKey)
    requires Linked(l) && k in l.flags && !l.flags[k].finished && k !in l.pending && k !in l.signaled
    ensures Linked(AddToPending(l, k))
  {
    var r := AddToPending(l, k);
    forall i, j | 0 <= i < j < |r.pending|
      ensures r.pending[i] != r.pending[j]
    {
      if i == 0 {
        assert r.pending[j] == l.pending[j - 1];
      } else {
        assert r.pending[i] == l.pending[i - 1] && r.pending[j] == l.pending[j - 1];
      }
    }
  }

  /** A plugin that signals an action while its block runs is not heard:
      UpdateAction's MoveToPending puts the action back on pending exactly
      as if the signal had never come. */
  lemma SignalWhileRunningIsDropped(l: Lists, k: ActionKey)
    requires Linked(l) && k in l.pending && k in l.flags
    ensures SignalAction(l, k).signaled == [k] + l.signaled
    ensures MoveToPending(SignalAction(l, k), k) == MoveToPending(l, k)
  {
    PushThenUnlink(l.signaled, k);
  }

  // ---------------------------------------------------------------------
  // Triggers

  /** TSFFI_*_ACTION: the commands an action controller receives. */
  datatype Command = InitCmd | RunningCmd | UpdateCmd | QueryCmd | StopCmd

  function CommandCode(c: Command): (code: nat)
    ensures code <= 4
  {
    match c
    case InitCmd => 0
    case RunningCmd => 1
    case UpdateCmd => 2
    case QueryCmd => 3
    case StopCmd => 4
  }

  lemma CommandCodesDistinct(a: Command, b: Command)
    ensures CommandCode(a) == CommandCode(b) <==> a == b
  {
  }

  /** TSFFI_ACTION_STATE_*, the states QUERY reports. */
  const TriggerPending: nat := 0
  const TriggerTriggered: nat := 1
  const TriggerFinished: nat := 2

  /** What a controller call returns: an error, and for QUERY the state. */
  datatype Reply = Reply(error: bool, state: nat)

  /** A trigger's controller call, for trigger `t` of action `k`. */
  datatype Call = Call(key: ActionKey, trigger: nat, command: Command)

  type Controller = (ActionKey, nat, Command, seq<FFIValue>) -> Reply

  function Ask(ctl: Controller, k: ActionKey, t: nat, c: Command, args: seq<FFIValue>): Reply
  {
    ctl(k, t, c, args)
  }

  /** The calls `c` on triggers `lo` up to `hi` of action `k`, in order. */
  function Calls(k: ActionKey, lo: nat, hi: nat, c: Command): (r: seq<Call>)
    requires lo <= hi
    decreases hi as int - lo
    ensures |r| == hi - lo
    ensures forall i :: 0 <= i < |r| ==> r[i] == Call(k, lo + i, c)
  {
    if lo == hi then [] else [Call(k, lo, c)] + Calls(k, lo + 1, hi, c)
  }

  /** The plugin arguments of a trigger, evaluated in the unit's scope. A
      trigger resolves to a plugin action function; any other target would
      be read through the wrong union member. */
  function TriggerArgs(env: Env, c: FunctionCall): (r: Outcome<seq<FFIValue>>)
    ensures c.target.None? || !c.target.value.FFITarget? ==> r.Unspecified?
    ensures r.Done? ==> |r.value| == |c.arguments|
  {
    match c.target
    case Some(FFITarget(_, argTypes, _)) => FFIArguments(env, c, argTypes, 0)
    case _ => Unspecified
  }

  /** How one trigger's argument evaluation or controller call failed. */
  datatype Fault = ArgsRaised(exception: Exception) | ArgsUnknown | ControllerError

  /** The outcome of one trigger's command with evaluated arguments. */
  function TriggerFault(env: Env, ctl: Controller, k: ActionKey, t: nat, trig: FunctionCall, c: Command): (r: Option<Fault>)
    ensures r.None? <==> TriggerArgs(env, trig).Done? && !Ask(ctl, k, t, c, TriggerArgs(env, trig).value).error
  {
    match TriggerArgs(env, trig)
    case Raised(x) => Some(ArgsRaised(x))
    case Unspecified => Some(ArgsUnknown)
    case Done(args) => if Ask(ctl, k, t, c, args).error then Some(ControllerError) else None
  }

  /** The loop of InitActions and UpdateAction over an action's triggers:
      evaluate each trigger's arguments and send it `c`, stopping at the
      first failure, which is reported with its position. */
  function FirstFault(env: Env, ctl: Controller, k: ActionKey, triggers: seq<FunctionCall>, c: Command, t: nat): (r: Option<(nat, Fault)>)
    requires t <= |triggers|
    ensures r.None? <==> forall u :: t <= u < |triggers| ==> TriggerFault(env, ctl, k, u, triggers[u], c).None?
    ensures r.Some? ==> t <= r.value.0 < |triggers| &&
                        TriggerFault(env, ctl, k, r.value.0, triggers[r.value.0], c) == Some(r.value.1) &&
                        forall u :: t <= u < r.value.0 ==> TriggerFault(env, ctl, k, u, triggers[u], c).None?
    decreases |triggers| - t
  {
    if t == |triggers| then None
    else
      match TriggerFault(env, ctl, k, t, triggers[t], c)
      case Some(f) => Some((t, f))
      case None => FirstFault(env, ctl, k, triggers, c, t + 1)
  }

  /** The first trigger whose argument-free command `c` fails. */
  function FirstError(ctl: Controller, k: ActionKey, n: nat, c: Command, t: nat): (r: Option<nat>)
    requires t <= n
    ensures r.None? <==> forall u :: t <= u < n ==> !Ask(ctl, k, u, c, []).error
    ensures r.Some? ==> t <= r.value < n && Ask(ctl, k, r.value, c, []).error &&
                        forall u :: t <= u < r.value ==> !Ask(ctl, k, u, c, []).error
    decreases n - t
  {
    if t == n then None
    else if Ask(ctl, k, t, c, []).error then Some(t)
    else FirstError(ctl, k, n, c, t + 1)
  }

  // ---------------------------------------------------------------------
  // Evaluating an action

  /** TSINT_ACTION_*: what evaluating an action found. */
  datatype ActionStatus = ActionPending | ActionTriggered | ActionFinished

  /** The QUERY loop of EvaluateAction: how many triggers report TRIGGERED
      and how many FINISHED, None at the first controller error. Any other
      reported state counts as neither. */
  function QueryCounts(ctl: Controller, k: ActionKey, n: nat, t: nat): (r: Option<(nat, nat)>)
    requires t <= n
    ensures r.Some? <==> forall u :: t <= u < n ==> !Ask(ctl, k, u, QueryCmd, []).error
    ensures r.Some? ==> r.value.0 <= n - t && r.value.1 <= n - t
    ensures r.Some? ==> (r.value.1 == n - t <==>
                         forall u :: t <= u < n ==> Ask(ctl, k, u, QueryCmd, []).state == TriggerFinished)
    ensures r.Some? ==> (r.value.0 > 0 <==>
                         exists u :: t <= u < n && Ask(ctl, k, u, QueryCmd, []).state == TriggerTriggered)
    decreases n - t
  {
    if t == n then Some((0, 0))
    else
      var reply := Ask(ctl, k, t, QueryCmd, []);
      if reply.error then None
      else
        match QueryCounts(ctl, k, n, t + 1)
        case None => None
        case Some((triggered, finished)) =>
          Some((triggered + (if reply.state == TriggerTriggered then 1 else 0),
                finished + (if reply.state == TriggerFinished then 1 else 0)))
  }

  predicate QueryFailed(ctl: Controller, k: ActionKey, n: nat)
  {
    exists u :: 0 <= u < n && Ask(ctl, k, u, QueryCmd, []).error
  }

  predicate AllFinished(ctl: Controller, k: ActionKey, n: nat)
  {
    forall u :: 0 <= u < n ==> Ask(ctl, k, u, QueryCmd, []).state == TriggerFinished
  }

  predicate AnyTriggered(ctl: Controller, k: ActionKey, n: nat)
  {
    exists u :: 0 <= u < n && Ask(ctl, k, u, QueryCmd, []).state == TriggerTriggered
  }

  datatype Evaluated = Evaluated(lists: Lists, activeCount: int, status: Outcome<ActionStatus>)

  /** TSInt_EvaluateAction on an action with `n` triggers: put it back on
      pending, QUERY every trigger; it is FINISHED when every trigger
      reports FINISHED (it then leaves every list and the unit's count of
      active actions drops), TRIGGERED when some trigger reports TRIGGERED,
      else PENDING. A controller error removes the action (without
      adjusting the count) and raises the FFI exception. */
  function EvaluateAction(l: Lists, activeCount: int, k: ActionKey, n: nat, ctl: Controller): (r: Evaluated)
    requires k in l.flags
    ensures r.lists.flags.Keys == l.flags.Keys
    ensures r.status.Raised? <==> QueryFailed(ctl, k, n)
    ensures r.status.Raised? ==> r.status.exception == FFIFailure && r.activeCount == activeCount
    ensures !r.status.Unspecified?
    ensures r.status == Done(ActionFinished) <==> !QueryFailed(ctl, k, n) && AllFinished(ctl, k, n)
    ensures r.status == Done(ActionTriggered) <==>
              !QueryFailed(ctl, k, n) && !AllFinished(ctl, k, n) && AnyTriggered(ctl, k, n)
    ensures r.status == Done(ActionFinished) <==> r.activeCount == activeCount - 1
    ensures r.status == Done(ActionFinished) || r.status.Raised? ==>
              k in r.lists.flags && r.lists.flags[k].finished
    ensures r.status == Done(ActionPending) || r.status == Done(ActionTriggered) ==>
              r.lists == AddToPending(l, k)
  {
    var added := AddToPending(l, k);
    match QueryCounts(ctl, k, n, 0)
    case None => Evaluated(RemoveFromAll(added, k), activeCount, Raised(FFIFailure))
    case Some((triggered, finished)) =>
      if finished == n then Evaluated(RemoveFromAll(added, k), activeCount - 1, Done(ActionFinished))
      else Evaluated(added, activeCount, Done(if triggered != 0 then ActionTriggered else ActionPending))
  }

  /** An action the module loop took off the signaled list (on no list,
      not finished) leaves evaluation on pending or on no list, and the
      lists stay well linked. */
  lemma EvaluateKeepsLinked(l: Lists, activeCount: int, k: ActionKey, n: nat, ctl: Controller)
    requires Linked(l) && k in l.flags && !l.flags[k].finished && k !in l.pending && k !in l.signaled
    ensures var r := EvaluateAction(l, activeCount, k, n, ctl);
            Linked(r.lists) && (k in r.lists.pending <==> r.status.Done? && r.status.value != ActionFinished)
  {
    AddToPendingKeepsLinked(l, k);
  }

  datatype Stepped = Stepped(lists: Lists, outcome: Outcome<()>)

  /** TSInt_PrepActionRun: tell every trigger the action is about to run;
      a controller error removes the action and raises the FFI exception. */
  function PrepActionRun(l: Lists, k: ActionKey, n: nat, ctl: Controller): (r: Stepped)
    requires k in l.flags
    ensures r.lists.flags.Keys == l.flags.Keys
    ensures r.outcome.Done? <==> forall u :: 0 <= u < n ==> !Ask(ctl, k, u, RunningCmd, []).error
    ensures r.outcome.Done? ==> r.lists == l
    ensures !r.outcome.Done? ==> r.outcome == Raised(FFIFailure) && r.lists == RemoveFromAll(l, k)
  {
    if FirstError(ctl, k, n, RunningCmd, 0).Some? then Stepped(RemoveFromAll(l, k), Raised(FFIFailure))
    else Stepped(l, Done(()))
  }

  /** TSInt_UpdateAction, after the action's block has run: move the action
      back to pending and send UPDATE to every trigger with its arguments
      evaluated afresh in the unit's scope. A failing evaluation or
      controller call removes the action and raises. */
  function UpdateAction(l: Lists, k: ActionKey, triggers: seq<FunctionCall>, env: Env, ctl: Controller): (r: Stepped)
    requires k in l.flags
    ensures r.lists.flags.Keys == l.flags.Keys
    ensures r.outcome.Done? <==>
              forall u :: 0 <= u < |triggers| ==> TriggerFault(env, ctl, k, u, triggers[u], UpdateCmd).None?
    ensures !r.outcome.Raised? ==> r.lists == MoveToPending(l, k)
    ensures r.outcome.Raised? ==> r.lists == RemoveFromAll(MoveToPending(l, k), k)
    ensures r.outcome.Raised? && r.outcome.exception != FFIFailure ==>
              exists u :: 0 <= u < |triggers| && TriggerArgs(env, triggers[u]) == Raised(r.outcome.exception)
  {
    var moved := MoveToPending(l, k);
    match FirstFault(env, ctl, k, triggers, UpdateCmd, 0)
    case None => Stepped(moved, Done(()))
    case Some((u, f)) =>
      match f
      case ArgsRaised(x) => Stepped(RemoveFromAll(moved, k), Raised(x))
      case ArgsUnknown => Stepped(moved, Unspecified)
      case ControllerError => Stepped(RemoveFromAll(moved, k), Raised(FFIFailure))
  }

  // ---------------------------------------------------------------------
  // Arming and stopping a unit's actions

  function KeyOf(unitId: nat, a: nat): ActionKey
  {
    ActionKey(unitId, a)
  }

  /** Every trigger of actions `lo` up to `hi`, one command each. */
  function AllCalls(unitId: nat, actions: seq<Action>, lo: nat, hi: nat, c: Command): (r: seq<Call>)
    requires lo <= hi <= |actions|
    decreases hi as int - lo
  {
    if lo == hi then []
    else Calls(KeyOf(unitId, lo), 0, |actions[lo].triggers|, c) + AllCalls(unitId, actions, lo + 1, hi, c)
  }

  /** The lists with actions `lo` up to `hi` removed, in order. */
  function RemoveActions(l: Lists, unitId: nat, lo: nat, hi: nat): (r: Lists)
    requires lo <= hi
    requires forall a :: lo <= a < hi ==> KeyOf(unitId, a) in l.flags
    ensures r.flags.Keys == l.flags.Keys
    ensures forall a :: lo <= a < hi ==> r.flags[KeyOf(unitId, a)].finished
    ensures Linked(l) ==> forall a :: lo <= a < hi ==> KeyOf(unitId, a) !in r.pending && KeyOf(unitId, a) !in r.signaled
    ensures forall x :: x in l.flags && (x.unitId != unitId || x.index < lo || x.index >= hi) ==>
              r.flags[x] == l.flags[x] && (x in r.pending <==> x in l.pending) && (x in r.signaled <==> x in l.signaled)
    ensures Linked(l) ==> Linked(r)
    decreases hi as int - lo
  {
    if lo == hi then l
    else
      var k := KeyOf(unitId, lo);
      var l1 := RemoveFromAll(l, k);
      var r := RemoveActions(l1, unitId, lo + 1, hi);
      assert forall x :: x in l.flags && x != k ==> l1.flags[x] == l.flags[x];
      r
  }

  /** The forward loop of TSInt_InitActions from action `a` on: reset the
      action's flags, push it on pending, INIT its triggers, count it
      active. `inits` collects the INIT calls that succeeded; `fault` is the
      first failure with its action and trigger. */
  datatype InitRun = InitRun(lists: Lists, activeCount: nat, inits: seq<Call>, fault: Option<(nat, nat, Fault)>)

  /** What the forward loop of TSInt_InitActions does to the lists for
      actions `a` up to `b`: each action's flags are reset and it is
      pushed on pending, the later ones in front. */
  function PushFrom(l: Lists, unitId: nat, a: nat, b: nat): (r: Lists)
    decreases b - a
  {
    if a >= b then l
    else
      var k := KeyOf(unitId, a);
      PushFrom(AddToPending(l.(flags := l.flags[k := Flags(false, false)]), k), unitId, a + 1, b)
  }

  function InitFrom(l: Lists, activeCount: nat, unitId: nat, actions: seq<Action>, env: Env, ctl: Controller, a: nat): (r: InitRun)
    requires a <= |actions|
    ensures r.fault.None? ==> r.activeCount == activeCount + |actions| - a &&
                              r.inits == AllCalls(unitId, actions, a, |actions|, InitCmd)
    ensures r.fault.Some? ==> a <= r.fault.value.0 < |actions| &&
                              r.fault.value.1 < |actions[r.fault.value.0].triggers| &&
                              r.inits == AllCalls(unitId, actions, a, r.fault.value.0, InitCmd) +
                                         Calls(KeyOf(unitId, r.fault.value.0), 0, r.fault.value.1, InitCmd)
    ensures forall b :: a <= b < |actions| && (r.fault.None? || b <= r.fault.value.0) ==>
              KeyOf(unitId, b) in r.lists.flags
    ensures forall x :: x in l.flags ==> x in r.lists.flags
    ensures forall x :: x in r.lists.flags ==> x in l.flags || x.unitId == unitId
    ensures r.lists == PushFrom(l, unitId, a, if r.fault.None? then |actions| else r.fault.value.0 + 1)
    decreases |actions| - a
  {
    if a == |actions| then InitRun(l, activeCount, [], None)
    else
      var k := KeyOf(unitId, a);
      var pushed := AddToPending(l.(flags := l.flags[k := Flags(false, false)]), k);
      match FirstFault(env, ctl, k, actions[a].triggers, InitCmd, 0)
      case Some((t, f)) => InitRun(pushed, activeCount, Calls(k, 0, t, InitCmd), Some((a, t, f)))
      case None =>
        var rest := InitFrom(pushed, activeCount + 1, unitId, actions, env, ctl, a + 1);
        InitRun(rest.lists, rest.activeCount,
                Calls(k, 0, |actions[a].triggers|, InitCmd) + rest.inits, rest.fault)
  }

  /** The unwinding of TSInt_InitActions after a failure at trigger `t` of
      action `a`: STOP every trigger of the earlier actions and the
      triggers of action `a` before `t`, in order. */
  function UnwindStops(unitId: nat, actions: seq<Action>, a: nat, t: nat): (r: seq<Call>)
    requires a < |actions| && t <= |actions[a].triggers|
  {
    AllCalls(unitId, actions, 0, a, StopCmd) + Calls(KeyOf(unitId, a), 0, t, StopCmd)
  }

  datatype Armed = Armed(lists: Lists, activeCount: nat, inits: seq<Call>, stops: seq<Call>,
                         outcome: Outcome<()>, failedAction: Option<nat>)

  /** TSInt_InitActions: arm every action of a unit invocation. On a
      failure every trigger INIT reached is stopped again, every action
      armed so far is removed, and the failing action is reported. An
      argument exception is raised as it is; a controller error raises
      the FFI exception. */
  function InitActions(l: Lists, activeCount: nat, unitId: nat, actions: seq<Action>, env: Env, ctl: Controller): (r: Armed)
    ensures r.outcome.Done? ==> r.failedAction.None? && r.stops == [] &&
                                r.activeCount == activeCount + |actions| &&
                                forall a :: 0 <= a < |actions| ==> KeyOf(unitId, a) in r.lists.flags
    ensures r.failedAction.Some? ==> r.failedAction.value < |actions| && !r.outcome.Done?
    ensures r.outcome.Raised? ==> r.failedAction.Some? &&
                                  forall a :: 0 <= a <= r.failedAction.value ==>
                                    KeyOf(unitId, a) in r.lists.flags && r.lists.flags[KeyOf(unitId, a)].finished
    ensures forall x :: x in l.flags ==> x in r.lists.flags
    ensures forall x :: x in r.lists.flags ==> x in l.flags || x.unitId == unitId
  {
    ArmFrom(InitFrom(l, activeCount, unitId, actions, env, ctl, 0), unitId, actions)
  }

  /** The backward, unwinding half of TSInt_InitActions, given what the
      forward loop did: on a fault, every action up to the failing one is
      removed from the lists and its initialised triggers are stopped. */
  function ArmFrom(run: InitRun, unitId: nat, actions: seq<Action>): (r: Armed)
    requires run.fault.Some? ==> run.fault.value.0 < |actions| &&
                                 run.fault.value.1 < |actions[run.fault.value.0].triggers| &&
                                 forall b :: 0 <= b <= run.fault.value.0 ==> KeyOf(unitId, b) in run.lists.flags
  {
    match run.fault
    case None => Armed(run.lists, run.activeCount, run.inits, [], Done(()), None)
    case Some((a, t, f)) =>
      var removed := RemoveActions(run.lists, unitId, 0, a + 1);
      var outcome: Outcome<()> := match f
        case ArgsRaised(x) => Raised(x)
        case ArgsUnknown => Unspecified
        case ControllerError => Raised(FFIFailure);
      Armed(removed, run.activeCount, run.inits, UnwindStops(unitId, actions, a, t), outcome, Some(a))
  }

  /** The STOP calls of an unwound InitActions are exactly the INIT calls
      that succeeded, trigger for trigger and in the same order: no
      trigger is stopped that was not initialised, and none initialised is
      left running. */
  lemma InitFailureStopsWhatItStarted(l: Lists, activeCount: nat, unitId: nat, actions: seq<Action>,
                                      env: Env, ctl: Controller)
    ensures var r := InitActions(l, activeCount, unitId, actions, env, ctl);
            r.failedAction.Some? ==>
              |r.stops| == |r.inits| &&
              (forall i :: 0 <= i < |r.stops| ==>
                 r.stops[i].key == r.inits[i].key && r.stops[i].trigger == r.inits[i].trigger &&
                 r.inits[i].command == InitCmd && r.stops[i].command == StopCmd)
  {
    var r := InitActions(l, activeCount, unitId, actions, env, ctl);
    var run := InitFrom(l, activeCount, unitId, actions, env, ctl, 0);
    if run.fault.Some? {
      var a := run.fault.value.0;
      var t := run.fault.value.1;
      assert r.inits == AllCalls(unitId, actions, 0, a, InitCmd) + Calls(KeyOf(unitId, a), 0, t, InitCmd);
      assert r.stops == UnwindStops(unitId, actions, a, t);
      UnwindMatchesInits(unitId, actions, a, t);
    }
  }

  /** The STOP calls of the unwinding pair off, one for one, with the
      INIT calls made before the failure at trigger `t` of action `a`. */
  lemma UnwindMatchesInits(unitId: nat, actions: seq<Action>, a: nat, t: nat)
    requires a < |actions| && t <= |actions[a].triggers|
    ensures var inits := AllCalls(unitId, actions, 0, a, InitCmd) + Calls(KeyOf(unitId, a), 0, t, InitCmd);
            var stops := UnwindStops(unitId, actions, a, t);
            |stops| == |inits| &&
            forall i :: 0 <= i < |stops| ==>
              stops[i].key == inits[i].key && stops[i].trigger == inits[i].trigger &&
              inits[i].command == InitCmd && stops[i].command == StopCmd
  {
    AllCallsSameShape(unitId, actions, 0, a, InitCmd, StopCmd);
    var k := KeyOf(unitId, a);
    var ai := AllCalls(unitId, actions, 0, a, InitCmd);
    var as_ := AllCalls(unitId, actions, 0, a, StopCmd);
    var ci := Calls(k, 0, t, InitCmd);
    var cs := Calls(k, 0, t, StopCmd);
    var inits := ai + ci;
    var stops := as_ + cs;
    forall i | 0 <= i < |stops|
      ensures stops[i].key == inits[i].key && stops[i].trigger == inits[i].trigger &&
              inits[i].command == InitCmd && stops[i].command == StopCmd
    {
      if i < |ai| {
        assert stops[i] == as_[i] && inits[i] == ai[i];
      } else {
        assert stops[i] == cs[i - |ai|] && inits[i] == ci[i - |ai|];
      }
    }
  }

  /** The same triggers in the same order, whatever the command. */
  lemma {:induction false} AllCallsSameShape(unitId: nat, actions: seq<Action>, lo: nat, hi: nat, c: Command, d: Command)
    requires lo <= hi <= |actions|
    ensures var p := AllCalls(unitId, actions, lo, hi, c);
            var q := AllCalls(unitId, actions, lo, hi, d);
            (|p| == |q| &&
             forall i :: 0 <= i < |p| ==>
               p[i].key == q[i].key && p[i].trigger == q[i].trigger && p[i].command == c && q[i].command == d)
    decreases hi as int - lo
  {
    if lo < hi {
      AllCallsSameShape(unitId, actions, lo + 1, hi, c, d);
      var k := KeyOf(unitId, lo);
      var n := |actions[lo].triggers|;
      var p1: seq<Call> := Calls(k, 0, n, c);
      var q1: seq<Call> := Calls(k, 0, n, d);
      var p2: seq<Call> := AllCalls(unitId, actions, lo + 1, hi, c);
      var q2: seq<Call> := AllCalls(unitId, actions, lo + 1, hi, d);
      assert AllCalls(unitId, actions, lo, hi, c) == p1 + p2;
      assert AllCalls(unitId, actions, lo, hi, d) == q1 + q2;
      forall i | 0 <= i < |p1| + |p2|
        ensures (p1 + p2)[i].key == (q1 + q2)[i].key && (p1 + p2)[i].trigger == (q1 + q2)[i].trigger &&
                (p1 + p2)[i].command == c && (q1 + q2)[i].command == d
      {
        if i >= |p1| {
          assert (p1 + p2)[i] == p2[i - |p1|] && (q1 + q2)[i] == q2[i - |p1|];
        }
      }
    }
  }

  /** Arming from action `a` on keeps the lists well linked, keeps what
      was pending pending, and leaves every armed action pending. */
  lemma InitFromKeepsLinked(l: Lists, activeCount: nat, unitId: nat, actions: seq<Action>,
                            env: Env, ctl: Controller, a: nat)
    requires a <= |actions| && Linked(l)
    requires forall b :: a <= b < |actions| ==> KeyOf(unitId, b) !in l.pending && KeyOf(unitId, b) !in l.signaled
    ensures var r := InitFrom(l, activeCount, unitId, actions, env, ctl, a);
            Linked(r.lists) &&
            (forall x :: x in l.pending ==> x in r.lists.pending) &&
            (forall b :: a <= b < |actions| && (r.fault.None? || b <= r.fault.value.0) ==> KeyOf(unitId, b) in r.lists.pending)
  {
    var r := InitFrom(l, activeCount, unitId, actions, env, ctl, a);
    var stop := if r.fault.None? then |actions| else r.fault.value.0 + 1;
    PushFromKeepsLinked(l, unitId, a, stop);
  }

  /** Pushing actions `a` up to `b`, none of them on a list, keeps the
      lists well linked, keeps what was pending pending, and leaves every
      pushed action pending. */
  lemma {:induction false} PushFromKeepsLinked(l: Lists, unitId: nat, a: nat, b: nat)
    requires Linked(l)
    requires forall c :: a <= c < b ==> KeyOf(unitId, c) !in l.pending && KeyOf(unitId, c) !in l.signaled
    ensures var r := PushFrom(l, unitId, a, b);
            Linked(r) &&
            (forall x :: x in l.pending ==> x in r.pending) &&
            (forall c :: a <= c < b ==> KeyOf(unitId, c) in r.pending)
    decreases b - a
  {
    if a < b {
      var k := KeyOf(unitId, a);
      var reset := l.(flags := l.flags[k := Flags(false, false)]);
      assert Linked(reset);
      AddToPendingKeepsLinked(reset, k);
      var pushed := AddToPending(reset, k);
      assert forall c :: a + 1 <= c < b ==> KeyOf(unitId, c) != k;
      PushFromKeepsLinked(pushed, unitId, a + 1, b);
      var r := PushFrom(l, unitId, a, b);
      forall x | x in l.pending
        ensures x in r.pending
      {
        assert x in pushed.pending;
      }
      forall c | a <= c < b
        ensures KeyOf(unitId, c) in r.pending
      {
        if c == a {
          assert pushed.pending[0] == k;
        }
      }
    }
  }

  /** A unit whose actions all arm has every action pending; one that
      fails has none of the actions it armed left on any list. Either way
      the lists stay well linked. */
  lemma InitActionsKeepsLinked(l: Lists, activeCount: nat, unitId: nat, actions: seq<Action>, env: Env, ctl: Controller)
    requires Linked(l)
    requires forall b :: 0 <= b < |actions| ==> KeyOf(unitId, b) !in l.pending && KeyOf(unitId, b) !in l.signaled
    ensures var r := InitActions(l, activeCount, unitId, actions, env, ctl);
            Linked(r.lists) &&
            (r.outcome.Done? ==> forall b :: 0 <= b < |actions| ==> KeyOf(unitId, b) in r.lists.pending) &&
            (r.failedAction.Some? ==>
               forall b :: 0 <= b <= r.failedAction.value ==>
                 KeyOf(unitId, b) !in r.lists.pending && KeyOf(unitId, b) !in r.lists.signaled)
  {
    InitFromKeepsLinked(l, activeCount, unitId, actions, env, ctl, 0);
    ArmFromKeepsLinked(InitFrom(l, activeCount, unitId, actions, env, ctl, 0), unitId, actions);
  }

  /** The unwinding half keeps the lists well linked, leaves every action
      pending when nothing failed, and takes every action up to the failing
      one off the lists. */
  lemma ArmFromKeepsLinked(run: InitRun, unitId: nat, actions: seq<Action>)
    requires Linked(run.lists)
    requires run.fault.Some? ==> run.fault.value.0 < |actions| &&
                                 run.fault.value.1 < |actions[run.fault.value.0].triggers| &&
                                 forall b :: 0 <= b <= run.fault.value.0 ==> KeyOf(unitId, b) in run.lists.flags
    requires forall b :: 0 <= b < |actions| && (run.fault.None? || b <= run.fault.value.0) ==>
               KeyOf(unitId, b) in run.lists.pending
    ensures var r := ArmFrom(run, unitId, actions);
            Linked(r.lists) &&
            (r.outcome.Done? ==> forall b :: 0 <= b < |actions| ==> KeyOf(unitId, b) in r.lists.pending) &&
            (r.failedAction.Some? ==>
               forall b :: 0 <= b <= r.failedAction.value ==>
                 KeyOf(unitId, b) !in r.lists.pending && KeyOf(unitId, b) !in r.lists.signaled)
  {
  }

  /** TSInt_StopActions: STOP every trigger of every action of the unit and
      remove every action from the lists. */
  function StopActions(l: Lists, unitId: nat, actions: seq<Action>): (r: (Lists, seq<Call>))
    requires forall a :: 0 <= a < |actions| ==> KeyOf(unitId, a) in l.flags
    ensures r.1 == AllCalls(unitId, actions, 0, |actions|, StopCmd)
    ensures Linked(l) ==> Linked(r.0)
    ensures Linked(l) ==>
              forall a :: 0 <= a < |actions| ==> KeyOf(unitId, a) !in r.0.pending && KeyOf(unitId, a) !in r.0.signaled
    ensures forall x :: x in l.flags && (x.unitId != unitId || x.index >= |actions|) ==>
              (x in r.0.pending <==> x in l.pending) && (x in r.0.signaled <==> x in l.signaled)
    ensures r.0.flags.Keys == l.flags.Keys
    ensures forall x :: x in l.flags && x.unitId != unitId ==> r.0.flags[x] == l.flags[x]
  {
    (RemoveActions(l, unitId, 0, |actions|), AllCalls(unitId, actions, 0, |actions|, StopCmd))
  }

  // ---------------------------------------------------------------------
  // What an operation on one action leaves alone

  /** Two list states agree on action `x`: it has flags in both or in
      neither, the same FINISHED bit, and the same list membership. */
  predicate Untouched(l: Lists, l': Lists, x: ActionKey)
  {
    (x in l.flags <==> x in l'.flags) &&
    (x in l.flags ==> l'.flags[x].finished == l.flags[x].finished) &&
    (x in l'.pending <==> x in l.pending) && (x in l'.signaled <==> x in l.signaled)
  }

  /** Evaluating, preparing and re-arming action `k` leave every other
      action as it was. */
  lemma OneActionUntouched(l: Lists, activeCount: int, k: ActionKey, n: nat, ctl: Controller,
                           triggers: seq<FunctionCall>, env: Env)
    requires k in l.flags
    ensures forall x :: x != k ==> Untouched(l, EvaluateAction(l, activeCount, k, n, ctl).lists, x)
    ensures forall x :: x != k ==> Untouched(l, PrepActionRun(l, k, n, ctl).lists, x)
    ensures forall x :: x != k ==> Untouched(l, UpdateAction(l, k, triggers, env, ctl).lists, x)
  {
    EvaluateUntouched(l, activeCount, k, n, ctl);
    PrepUntouched(l, k, n, ctl);
    UpdateUntouched(l, k, triggers, env, ctl);
  }

  lemma EvaluateUntouched(l: Lists, activeCount: int, k: ActionKey, n: nat, ctl: Controller)
    requires k in l.flags
    ensures forall x :: x != k ==> Untouched(l, EvaluateAction(l, activeCount, k, n, ctl).lists, x)
  {
    var added := AddToPending(l, k);
    assert forall x :: x != k ==> Untouched(l, added, x);
    assert forall x :: x != k ==> Untouched(l, RemoveFromAll(added, k), x);
    assert forall x :: x != k ==> Untouched(l, RemoveFromAll(l, k), x);
  }

  lemma PrepUntouched(l: Lists, k: ActionKey, n: nat, ctl: Controller)
    requires k in l.flags
    ensures forall x :: x != k ==> Untouched(l, PrepActionRun(l, k, n, ctl).lists, x)
  {
    assert forall x :: x != k ==> Untouched(l, RemoveFromAll(l, k), x);
  }

  lemma UpdateUntouched(l: Lists, k: ActionKey, triggers: seq<FunctionCall>, env: Env, ctl: Controller)
    requires k in l.flags
    ensures forall x :: x != k ==> Untouched(l, UpdateAction(l, k, triggers, env, ctl).lists, x)
  {
    var moved := MoveToPending(l, k);
    var r := UpdateAction(l, k, triggers, env, ctl);
    forall x | x != k
      ensures Untouched(l, r.lists, x)
    {
      assert Untouched(l, moved, x);
      if r.outcome.Raised? {
        assert Untouched(moved, r.lists, x);
        UntouchedTrans(l, moved, r.lists, x);
      }
    }
  }

  /** Stopping a unit's actions leaves every other unit's actions as they
      were. */
  lemma StopActionsUntouched(l: Lists, unitId: nat, actions: seq<Action>)
    requires Linked(l)
    requires forall a :: 0 <= a < |actions| ==> KeyOf(unitId, a) in l.flags
    ensures forall x: ActionKey :: x.unitId != unitId ==> Untouched(l, StopActions(l, unitId, actions).0, x)
  {
  }

  /** Untouched is transitive. */
  lemma UntouchedTrans(l1: Lists, l2: Lists, l3: Lists, x: ActionKey)
    requires Untouched(l1, l2, x) && Untouched(l2, l3, x)
    ensures Untouched(l1, l3, x)
  {
  }
}
