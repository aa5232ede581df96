/** The timer, ptimer and vtimer action controllers of the time plugin
    (tscore/time/source/timer.c). Each keeps a word of flags and at most one
    operating-system timer. The OS timer is reduced to an `armed` bit: SetTimer
    and registering the id in the plugin's id hash are oracle inputs, and the
    timer firing is the Expire operation. */
module Timer {
  import opened Wrappers
  import IntAction

  const FlagRunning: bv32 := 0x01
  const FlagFinished: bv32 := 0x02
  const FlagTriggered: bv32 := 0x04
  const FlagTriggeredWait: bv32 := 0x08
  const FlagPeriodic: bv32 := 0x10

  /** The three controllers: timer fires once, ptimer fires periodically,
      vtimer fires once but is re-armed from a fresh delay on every UPDATE. */
  datatype Kind = OneShot | Periodic | Variable

  /** struct timer_data. `timerId` is the id SetTimer returned (0 where the
      C field is never written); `armed` says that id is a live OS timer
      registered in the id hash. */
  datatype TimerData = TimerData(flags: bv32, timerId: nat, armed: bool)

  /** What the host does when the controller asks for resources: whether
      malloc succeeds, the id SetTimer returns (0 means failure), and whether
      FFILib_AddID succeeds. */
  datatype Host = Host(allocOk: bool, setTimerId: nat, addIdOk: bool)

  /** The effect of one controller request: the new data, whether
      signal_action was called, and whether TSFFI_ERROR_EXCEPTION was
      returned. */
  datatype Reply = Reply(data: TimerData, signaled: bool, exception: bool)

  predicate Has(d: TimerData, flag: bv32)
  {
    d.flags & flag != 0
  }

  /** None of FINISHED, TRIGGERED and TRIGGERED_WAIT is set. */
  predicate Quiet(d: TimerData)
  {
    d.flags & (FlagFinished | FlagTriggered | FlagTriggeredWait) == 0
  }

  /** The invariant of every reachable timer: the OS timer is live exactly
      while it can still fire usefully. */
  predicate Reachable(kind: Kind, d: TimerData)
  {
    match kind
    case OneShot => !Has(d, FlagPeriodic) && (d.armed <==> Quiet(d))
    case Periodic => (d.armed <==> !Has(d, FlagFinished)) && (d.armed <==> Has(d, FlagPeriodic))
    case Variable => !Has(d, FlagPeriodic) && (d.armed ==> Quiet(d) && d.timerId != 0)
  }

  /** TSFFI_INIT_ACTION (timer.c:107-141, 248-282, 389-423). None is the
      exception return, with the data freed. A negative delay finishes the
      timer at once and signals; otherwise an OS timer is armed. */
  function Init(kind: Kind, delay: int, host: Host): (r: Option<Reply>)
    ensures r.Some? <==> host.allocOk && (delay < 0 || (host.setTimerId != 0 && host.addIdOk))
    ensures r.Some? ==> Reachable(kind, r.value.data) && !r.value.exception
    ensures r.Some? ==> (r.value.signaled <==> delay < 0)
    ensures r.Some? && delay < 0 ==> Has(r.value.data, FlagFinished) && !r.value.data.armed
    ensures r.Some? && delay >= 0 ==>
              r.value.data.armed && r.value.data.timerId == host.setTimerId &&
              !Has(r.value.data, FlagRunning) && Quiet(r.value.data)
  {
    if !host.allocOk then None
    else if delay < 0 then Some(Reply(TimerData(FlagFinished, 0, false), true, false))
    else if host.setTimerId == 0 || !host.addIdOk then None
    else
      var flags := if kind == Periodic then FlagPeriodic else 0;
      Some(Reply(TimerData(flags, host.setTimerId, true), false, false))
  }

  /** TSFFI_RUNNING_ACTION: the action body has started. */
  function Running(d: TimerData): (r: TimerData)
    ensures Has(r, FlagRunning)
    ensures r.armed == d.armed && r.timerId == d.timerId
    ensures Has(r, FlagFinished) == Has(d, FlagFinished) && Has(r, FlagPeriodic) == Has(d, FlagPeriodic)
    ensures Has(r, FlagTriggered) == Has(d, FlagTriggered) && Has(r, FlagTriggeredWait) == Has(d, FlagTriggeredWait)
    ensures Quiet(r) == Quiet(d)
  {
    d.(flags := d.flags | FlagRunning)
  }

  /** TimerEvent (timer.c:43-72): the OS timer fired. A timer whose action
      body is running only notes TRIGGERED_WAIT; otherwise it is TRIGGERED
      and the action is signalled. A non-periodic timer is killed. */
  function Expire(d: TimerData): (r: Reply)
    ensures Has(d, FlagRunning) ==> Has(r.data, FlagTriggeredWait) && !r.signaled
    ensures !Has(d, FlagRunning) ==> Has(r.data, FlagTriggered) && r.signaled
    ensures r.data.armed <==> d.armed && Has(d, FlagPeriodic)
    ensures r.data.timerId == d.timerId && !r.exception
    ensures Has(r.data, FlagFinished) == Has(d, FlagFinished)
    ensures Has(r.data, FlagPeriodic) == Has(d, FlagPeriodic)
    ensures Has(r.data, FlagRunning) == Has(d, FlagRunning)
  {
    var flags := if Has(d, FlagRunning) then d.flags | FlagTriggeredWait else d.flags | FlagTriggered;
    Reply(TimerData(flags, d.timerId, d.armed && Has(d, FlagPeriodic)), !Has(d, FlagRunning), false)
  }

  /** UPDATE of timer (timer.c:150-178): RUNNING is toggled; a TRIGGERED
      timer becomes FINISHED, a waiting trigger is promoted to TRIGGERED,
      and either change signals the action again. */
  function UpdateOneShot(d: TimerData): (r: Reply)
    ensures Has(d, FlagTriggered) ==> r.signaled && Has(r.data, FlagFinished) && !Has(r.data, FlagTriggered)
    ensures !Has(d, FlagTriggered) && Has(d, FlagTriggeredWait) ==>
              r.signaled && Has(r.data, FlagTriggered) && !Has(r.data, FlagTriggeredWait)
    ensures !Has(d, FlagTriggered) && !Has(d, FlagTriggeredWait) ==> !r.signaled && r.data.flags == d.flags ^ FlagRunning
    ensures Has(r.data, FlagRunning) != Has(d, FlagRunning)
    ensures r.data.armed == d.armed && r.data.timerId == d.timerId && !r.exception
  {
    var f := d.flags ^ FlagRunning;
    if f & FlagTriggered != 0 then
      Reply(d.(flags := (f ^ FlagTriggered) | FlagFinished), true, false)
    else if f & FlagTriggeredWait != 0 then
      Reply(d.(flags := (f ^ FlagTriggeredWait) | FlagTriggered), true, false)
    else Reply(d.(flags := f), false, false)
  }

  /** UPDATE of ptimer (timer.c:291-319): RUNNING is toggled, a TRIGGERED
      flag is cleared with a signal, and then a waiting trigger is promoted
      to TRIGGERED with another signal. FINISHED is never set. */
  function UpdatePeriodic(d: TimerData): (r: Reply)
    ensures Has(r.data, FlagTriggered) <==> Has(d, FlagTriggeredWait)
    ensures !Has(r.data, FlagTriggeredWait)
    ensures r.signaled <==> Has(d, FlagTriggered) || Has(d, FlagTriggeredWait)
    ensures Has(r.data, FlagFinished) == Has(d, FlagFinished)
    ensures Has(r.data, FlagPeriodic) == Has(d, FlagPeriodic)
    ensures Has(r.data, FlagRunning) != Has(d, FlagRunning)
    ensures r.data.armed == d.armed && r.data.timerId == d.timerId && !r.exception
  {
    var f := d.flags ^ FlagRunning;
    var f1 := if f & FlagTriggered != 0 then f ^ FlagTriggered else f;
    if f1 & FlagTriggeredWait != 0 then
      Reply(d.(flags := (f1 ^ FlagTriggeredWait) | FlagTriggered), true, false)
    else Reply(d.(flags := f1), f & FlagTriggered != 0, false)
  }

  /** Whether vtimer's UPDATE and STOP kill the current OS timer
      (timer.c:435-438, 490-493). */
  predicate VariableKills(d: TimerData)
  {
    Quiet(d) && d.timerId != 0
  }

  /** UPDATE of vtimer (timer.c:432-471): the old OS timer is killed when it
      may still fire, the flags are discarded, and the timer is re-armed from
      the freshly evaluated delay. A SetTimer failure leaves flags 0 and id 0;
      an AddID failure kills the new timer but keeps its id. */
  function UpdateVariable(d: TimerData, delay: int, host: Host): (r: Reply)
    ensures delay < 0 ==> r.data.flags == FlagFinished && r.signaled && !r.exception && !r.data.armed
    ensures delay >= 0 ==> r.data.flags == 0 && !r.signaled
    ensures delay >= 0 ==> (r.exception <==> host.setTimerId == 0 || !host.addIdOk)
    ensures delay >= 0 ==> (r.data.armed <==> !r.exception)
    ensures delay >= 0 ==> r.data.timerId == host.setTimerId
  {
    if delay < 0 then Reply(TimerData(FlagFinished, d.timerId, false), true, false)
    else if host.setTimerId == 0 then Reply(TimerData(0, 0, false), false, true)
    else if !host.addIdOk then Reply(TimerData(0, host.setTimerId, false), false, true)
    else Reply(TimerData(0, host.setTimerId, true), false, false)
  }

  /** TSFFI_UPDATE_ACTION for each kind. The delay and host are consulted
      only by vtimer, which re-evaluates its argument. */
  function Update(kind: Kind, d: TimerData, delay: int, host: Host): (r: Reply)
    ensures Reachable(kind, d) ==> Reachable(kind, r.data)
    ensures kind != Variable ==> !r.exception
  {
    match kind
    case OneShot => UpdateOneShot(d)
    case Periodic => UpdatePeriodic(d)
    case Variable => UpdateVariable(d, delay, host)
  }

  /** TSFFI_QUERY_ACTION (timer.c:180-190): FINISHED before TRIGGERED
      before PENDING. */
  function Query(d: TimerData): (state: nat)
    ensures state == IntAction.TriggerFinished <==> Has(d, FlagFinished)
    ensures state == IntAction.TriggerTriggered <==> !Has(d, FlagFinished) && Has(d, FlagTriggered)
    ensures state == IntAction.TriggerPending <==> !Has(d, FlagFinished) && !Has(d, FlagTriggered)
  {
    if Has(d, FlagFinished) then IntAction.TriggerFinished
    else if Has(d, FlagTriggered) then IntAction.TriggerTriggered
    else IntAction.TriggerPending
  }

  /** TSFFI_STOP_ACTION: whether the OS timer is killed and its id removed
      before the data is freed (timer.c:192-203, 333-344, 487-501). */
  function Stop(kind: Kind, d: TimerData): (kills: bool)
    ensures Reachable(kind, d) && d.armed ==> kills
    ensures kind != Variable && Reachable(kind, d) ==> (kills ==> d.armed)
  {
    match kind
    case OneShot => Quiet(d)
    case Periodic => !Has(d, FlagFinished)
    case Variable => VariableKills(d)
  }

  // ---------------------------------------------------------------------
  // Properties

  /** Every request keeps the invariant, so no reachable timer is leaked at
      STOP and no fired one-shot timer is killed twice. */
  lemma ExpireKeepsReachable(kind: Kind, d: TimerData)
    requires Reachable(kind, d) && d.armed
    ensures Reachable(kind, Expire(d).data)
  {
  }

  lemma RunningKeepsReachable(kind: Kind, d: TimerData)
    requires Reachable(kind, d)
    ensures Reachable(kind, Running(d))
  {
  }

  /** RUNNING followed by UPDATE leaves RUNNING clear, for every kind. */
  lemma UpdateEndsRunning(kind: Kind, d: TimerData, delay: int, host: Host)
    ensures !Has(Update(kind, Running(d), delay, host).data, FlagRunning)
  {
  }

  /** A negative delay finishes any kind of timer at once, and QUERY then
      reports FINISHED. */
  lemma NegativeDelayFinishes(kind: Kind, delay: int, host: Host)
    requires host.allocOk && delay < 0
    ensures Init(kind, delay, host).Some?
    ensures Init(kind, delay, host).value.signaled
    ensures Query(Init(kind, delay, host).value.data) == IntAction.TriggerFinished
  {
  }

  /** The life of a one-shot timer whose body is idle when it fires: INIT
      arms it, the expiry signals TRIGGERED, and RUNNING then UPDATE finish
      it with a second signal. */
  lemma OneShotLifecycle(delay: int, host: Host)
    requires delay >= 0 && host.allocOk && host.setTimerId != 0 && host.addIdOk
    ensures var d0 := Init(OneShot, delay, host).value.data;
            var e := Expire(d0);
            var u := Update(OneShot, Running(e.data), delay, host);
            Query(d0) == IntAction.TriggerPending &&
            e.signaled && Query(e.data) == IntAction.TriggerTriggered && !e.data.armed &&
            u.signaled && Query(u.data) == IntAction.TriggerFinished && !Stop(OneShot, u.data)
  {
  }

  /** A one-shot expiry during the body is deferred: the next UPDATE
      promotes it to TRIGGERED and signals then. */
  lemma DeferredTrigger(d: TimerData)
    requires Reachable(OneShot, d) && d.armed && Has(d, FlagRunning)
    ensures var e := Expire(d);
            var u := UpdateOneShot(e.data);
            !e.signaled && Query(e.data) == IntAction.TriggerPending &&
            u.signaled && Query(u.data) == IntAction.TriggerTriggered && !Has(u.data, FlagRunning)
  {
  }

  /** An armed ptimer stays armed through every request and never reports
      FINISHED. */
  lemma PeriodicNeverFinishes(d: TimerData, delay: int, host: Host)
    requires Reachable(Periodic, d) && d.armed
    ensures Update(Periodic, d, delay, host).data.armed
    ensures Expire(d).data.armed && Running(d).armed
    ensures Query(d) != IntAction.TriggerFinished
    ensures Query(Update(Periodic, d, delay, host).data) != IntAction.TriggerFinished
    ensures Query(Expire(d).data) != IntAction.TriggerFinished
  {
  }

  /** ptimer's UPDATE ignores the re-evaluated arguments. */
  lemma PeriodicIgnoresArguments(d: TimerData, delay1: int, host1: Host, delay2: int, host2: Host)
    ensures Update(Periodic, d, delay1, host1) == Update(Periodic, d, delay2, host2)
  {
  }

  /** vtimer's UPDATE result depends only on the new delay and host, not on
      the flags it had before. */
  lemma VariableForgetsState(d1: TimerData, d2: TimerData, delay: int, host: Host)
    ensures Update(Variable, d1, delay, host).data.flags == Update(Variable, d2, delay, host).data.flags
    ensures Update(Variable, d1, delay, host).signaled == Update(Variable, d2, delay, host).signaled
    ensures Update(Variable, d1, delay, host).exception == Update(Variable, d2, delay, host).exception
    ensures delay >= 0 ==> Update(Variable, d1, delay, host) == Update(Variable, d2, delay, host)
  {
  }

  /** Kept as written: after an UPDATE whose AddID fails, vtimer's flags are
      0 and its id non-zero, so STOP kills an OS timer that was already
      killed. */
  lemma VariableStopKillsDeadTimer(d: TimerData, delay: int, host: Host)
    requires delay >= 0 && host.setTimerId != 0 && !host.addIdOk
    ensures var r := Update(Variable, d, delay, host);
            r.exception && Reachable(Variable, r.data) && !r.data.armed && Stop(Variable, r.data)
  {
  }
}
