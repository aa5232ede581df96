/** The run-state bookkeeping of the IDE's main dialog
    (ts/application/tside/win32/source/ide.c): the five run states, the
    document flag that records edits made while a run window is up, the
    execution highlight, the menu items each state enables, and the
    handlers of the run commands and run-window notifications.

    Windows, dialogs and message boxes are not modelled: a message box's
    answer, whether files are unsaved and the runnable selection are
    inputs, and what the handlers ask of the run window or the editor is
    part of their result. */
module Ide {
  import opened Wrappers
  import IntBlock

  /** RUN_STATE_HIDDEN .. RUN_STATE_BREAK (ide.c:31-35). */
  datatype RunState = Hidden | Shown | Compiling | Executing | Break

  /** A unit's file name and a line in it. */
  datatype Location = Location(fileName: seq<char>, line: nat)

  /** The fields of struct ide_data the run bookkeeping reads and writes.
      `modifiedWhileRun` is DOCUMENT_FLAG_MODIFIED_WHILE_RUN_SHOWN (the only
      document flag); `readOnly` is the editor's read-only mode;
      `highlight` is the execution highlight the editor shows, if any;
      `current` is run_current_unit and run_current_location. */
  datatype Ide = Ide(state: RunState, modifiedWhileRun: bool, readOnly: bool,
                     current: Location, highlight: Option<Location>)

  /** The initial state set by InitializeDialog (ide.c:284-285). */
  function Init(): (s: Ide)
    ensures s.state == Hidden && !s.modifiedWhileRun && !s.readOnly && s.highlight.None?
    ensures Inv(s)
  {
    Ide(Hidden, false, false, Location([], 0), None)
  }

  /** What every reachable state satisfies: a hidden run window carries no
      record of edits made while it was up, and the execution highlight,
      when there is one, is at the remembered location (so that
      ContinueRun removes the highlight that BreakRun placed). */
  predicate Inv(s: Ide)
  {
    (s.state == Hidden ==> !s.modifiedWhileRun) &&
    (s.highlight.Some? ==> s.highlight.value == s.current)
  }

  // ---------------------------------------------------------------------
  // Run state and menus

  /** UpdateRunState (ide.c:349-378): entering HIDDEN forgets edits made
      while the run window was up; HIDDEN and SHOWN make the editor
      writable, COMPILING read-only, and EXECUTING and BREAK leave it as
      it is. */
  function UpdateRunState(s: Ide, target: RunState): (r: Ide)
    ensures r.state == target && r.current == s.current && r.highlight == s.highlight
    ensures r.modifiedWhileRun <==> s.modifiedWhileRun && target != Hidden
    ensures target == Hidden || target == Shown ==> !r.readOnly
    ensures target == Compiling ==> r.readOnly
    ensures target == Executing || target == Break ==> r.readOnly == s.readOnly
    ensures Inv(s) ==> Inv(r)
  {
    match target
    case Hidden => s.(state := Hidden, modifiedWhileRun := false, readOnly := false)
    case Shown => s.(state := Shown, readOnly := false)
    case Compiling => s.(state := Compiling, readOnly := true)
    case Executing => s.(state := Executing)
    case Break => s.(state := Break)
  }

  /** The enabled state of the menu items UpdateMenuState sets; the toolbar
      buttons follow the menu items of the same name. */
  datatype Menu = Menu(close: bool, closeAll: bool, start: bool, debug: bool,
                       resume: bool, stop: bool, step: bool, stepInto: bool,
                       variables: bool, exit: bool)

  /** UpdateMenuState (ide.c:380-502). */
  function MenuState(state: RunState, hasUserTabs: bool): (m: Menu)
    ensures m.close == hasUserTabs && m.closeAll == hasUserTabs
    ensures m.start == m.debug
    ensures m.resume == m.step && m.step == m.stepInto && m.stepInto == m.variables
    ensures m.exit <==> state == Hidden || state == Shown
    ensures m.start <==> state == Hidden || state == Shown
    ensures m.resume <==> state == Break
    ensures m.stop <==> state == Executing || state == Break
    ensures !(m.start && m.stop) && !(m.start && m.resume)
  {
    var idle := state == Hidden || state == Shown;
    var broken := state == Break;
    Menu(hasUserTabs, hasUserTabs, idle, idle, broken,
         state == Executing || broken, broken, broken, broken, idle)
  }

  // ---------------------------------------------------------------------
  // Edits

  /** MarkDocumentModified (ide.c:504-510): an edit is recorded only while
      a run window is up. */
  function MarkDocumentModified(s: Ide): (r: Ide)
    ensures r.modifiedWhileRun <==> s.modifiedWhileRun || s.state != Hidden
    ensures r.(modifiedWhileRun := s.modifiedWhileRun) == s
    ensures Inv(s) ==> Inv(r)
  {
    if s.state != Hidden then s.(modifiedWhileRun := true) else s
  }

  // ---------------------------------------------------------------------
  // Starting a run

  /** A YES/NO/CANCEL message box's answer; a failed message box answers
      neither YES nor CANCEL and is taken as No. */
  datatype Answer = Yes | No | Cancel

  /** What PrepareForRun leaves behind: the dialog's state, the run the
      run window was given (TSIDE_SetRunData's unit name and controller
      mode), and whether all files were saved first. */
  datatype Prepared = Prepared(after: Ide, started: Option<(seq<char>, IntBlock.Mode)>, savedAll: bool)

  /** PrepareForRun (ide.c:512-559): only while no run is in progress;
      with unsaved files the user may save them, go on without saving or
      cancel; an empty runnable selection is refused; otherwise the run
      window gets the unit and the mode and the state becomes SHOWN. */
  function PrepareForRun(s: Ide, mode: IntBlock.Mode, unsaved: bool, answer: Answer, selection: seq<char>): (r: Prepared)
    ensures r.started.Some? <==>
              (s.state == Hidden || s.state == Shown) && !(unsaved && answer == Cancel) && |selection| > 0
    ensures r.started.Some? ==> r.started.value == (selection, mode) && r.after == UpdateRunState(s, Shown)
    ensures r.started.None? ==> r.after == s
    ensures r.savedAll <==> (s.state == Hidden || s.state == Shown) && unsaved && answer == Yes
    ensures Inv(s) ==> Inv(r.after)
  {
    if s.state != Hidden && s.state != Shown then Prepared(s, None, false)
    else if unsaved && answer == Cancel then Prepared(s, None, false)
    else
      var saved := unsaved && answer == Yes;
      if |selection| == 0 then Prepared(s, None, saved)
      else Prepared(UpdateRunState(s, Shown), Some((selection, mode)), saved)
  }

  /** RunBeginning's answer to the run window (TRUE: go ahead), the
      dialog's state, and whether all files were saved. */
  datatype Beginning = Beginning(after: Ide, proceed: bool, savedAll: bool)

  /** RunBeginning (ide.c:561-589): when edits were made while the run
      window was up and files are unsaved, the user may save them, go on,
      or cancel the run; going on forgets the edits. */
  function RunBeginning(s: Ide, unsaved: bool, answer: Answer): (r: Beginning)
    ensures !r.proceed <==> s.modifiedWhileRun && unsaved && answer == Cancel
    ensures r.proceed ==> !r.after.modifiedWhileRun
    ensures r.after == s.(modifiedWhileRun := r.after.modifiedWhileRun)
    ensures !r.proceed ==> r.after == s
    ensures r.savedAll <==> s.modifiedWhileRun && unsaved && answer == Yes
    ensures Inv(s) ==> Inv(r.after)
  {
    if !s.modifiedWhileRun then Beginning(s, true, false)
    else if unsaved && answer == Cancel then Beginning(s, false, false)
    else Beginning(s.(modifiedWhileRun := false), true, unsaved && answer == Yes)
  }

  // ---------------------------------------------------------------------
  // Controlling a run

  /** What a run-control handler asks of the run: a new controller mode
      (TSIDE_SetRunControllerMode), an abort (TSIDE_AbortRun), or nothing. */
  datatype Request = SetMode(mode: IntBlock.Mode) | Abort | Nothing

  datatype Controlled = Controlled(after: Ide, request: Request)

  /** BreakRun (ide.c:599-612): the run stopped at a location, which is
      highlighted and remembered. */
  function BreakRun(s: Ide, at: Location): (r: Ide)
    ensures r.state == Break && r.current == at && r.highlight == Some(at)
    ensures r.modifiedWhileRun == s.modifiedWhileRun && r.readOnly == s.readOnly
    ensures Inv(s) ==> Inv(r)
  {
    UpdateRunState(s, Break).(current := at, highlight := Some(at))
  }

  /** ContinueRun (ide.c:622-636): only at a break; the break's highlight
      goes, the state becomes EXECUTING and the controller gets the mode. */
  function ContinueRun(s: Ide, mode: IntBlock.Mode): (r: Controlled)
    ensures r.request != Abort
    ensures r.request == SetMode(mode) <==> s.state == Break
    ensures r.request == Nothing ==> r.after == s
    ensures r.request.SetMode? ==>
              r.after.state == Executing && r.after.highlight == None &&
              r.after.current == s.current && r.after.modifiedWhileRun == s.modifiedWhileRun
    ensures Inv(s) ==> Inv(r.after)
  {
    if s.state != Break then Controlled(s, Nothing)
    else Controlled(UpdateRunState(s.(highlight := None), Executing), SetMode(mode))
  }

  /** StopRun (ide.c:591-597): at a break the run continues in HALT mode,
      otherwise it is aborted. */
  function StopRun(s: Ide): (r: Controlled)
    ensures r.request != Nothing
    ensures r.request == SetMode(IntBlock.Halt) <==> s.state == Break
    ensures r.request == Abort <==> s.state != Break
    ensures r.request == Abort ==> r.after == s
    ensures Inv(s) ==> Inv(r.after)
  {
    if s.state == Break then ContinueRun(s, IntBlock.Halt) else Controlled(s, Abort)
  }

  /** PrintVariables (ide.c:614-620): whether the variables are printed. */
  function PrintVariables(s: Ide): (printed: bool)
    ensures printed <==> s.state == Break
  {
    s.state == Break
  }

  // ---------------------------------------------------------------------
  // Closing

  /** TryDialogClose's CONTINUE_OPERATION or ABORT_OPERATION, with whether
      the "cannot close while running" message was shown. */
  datatype Close = Proceed | Refused(whileRunning: bool)

  /** TryDialogClose (ide.c:638-659): refused while a run is in progress,
      and otherwise when TSIDE_CheckFilesSaved reports an error (the user
      cancelled saving or a save failed); `filesSaved` is its answer. */
  function TryDialogClose(s: Ide, filesSaved: bool): (r: Close)
    ensures r == Proceed <==> (s.state == Hidden || s.state == Shown) && filesSaved
    ensures r == Refused(true) <==> s.state == Compiling || s.state == Executing || s.state == Break
  {
    if !s.state.Shown? && !s.state.Hidden? then Refused(true)
    else if !filesSaved then Refused(false)
    else Proceed
  }

  // ---------------------------------------------------------------------
  // Notifications

  /** The TSIDE_NOTIFY_* codes the dialog handles from the editor and the
      run window. */
  datatype Notification = DocumentModified | RunCompiling | RunExecuting | RunFinished | RunClosed

  /** The WM_NOTIFY handler (ide.c:980-1003): an edit is recorded, and each
      run notification moves to its state. */
  function Notify(s: Ide, n: Notification): (r: Ide)
    ensures n == RunCompiling ==> r.state == Compiling
    ensures n == RunExecuting ==> r.state == Executing
    ensures n == RunFinished ==> r.state == Shown
    ensures n == RunClosed ==> r.state == Hidden && !r.modifiedWhileRun
    ensures n == DocumentModified ==> r.state == s.state
    ensures r.current == s.current && r.highlight == s.highlight
    ensures Inv(s) ==> Inv(r)
  {
    match n
    case DocumentModified => MarkDocumentModified(s)
    case RunCompiling => UpdateRunState(s, Compiling)
    case RunExecuting => UpdateRunState(s, Executing)
    case RunFinished => UpdateRunState(s, Shown)
    case RunClosed => UpdateRunState(s, Hidden)
  }

  // ---------------------------------------------------------------------
  // Sequences of events

  /** Everything that changes the dialog's run bookkeeping, with the
      answers the handlers need. */
  datatype Event =
    | Notified(n: Notification)
    | Prepare(mode: IntBlock.Mode, unsaved: bool, answer: Answer, selection: seq<char>)
    | Begin(unsavedAtBegin: bool, answerAtBegin: Answer)
    | BreakAt(at: Location)
    | Continue(continueMode: IntBlock.Mode)
    | Stop

  function Handle(s: Ide, e: Event): (r: Ide)
  {
    match e
    case Notified(n) => Notify(s, n)
    case Prepare(mode, unsaved, answer, selection) => PrepareForRun(s, mode, unsaved, answer, selection).after
    case Begin(unsaved, answer) => RunBeginning(s, unsaved, answer).after
    case BreakAt(at) => BreakRun(s, at)
    case Continue(mode) => ContinueRun(s, mode).after
    case Stop => StopRun(s).after
  }

  /** The state after handling the events in order. */
  function Replay(s: Ide, events: seq<Event>): (r: Ide)
    decreases |events|
  {
    if |events| == 0 then s else Replay(Handle(s, events[0]), events[1..])
  }

  /** Every handler keeps the invariant. */
  lemma HandleKeepsInv(s: Ide, e: Event)
    requires Inv(s)
    ensures Inv(Handle(s, e))
  {
  }

  /** Every state reachable from the initial one satisfies the invariant. */
  lemma {:induction false} ReplayKeepsInv(s: Ide, events: seq<Event>)
    requires Inv(s)
    ensures Inv(Replay(s, events))
    decreases |events|
  {
    if |events| > 0 {
      HandleKeepsInv(s, events[0]);
      ReplayKeepsInv(Handle(s, events[0]), events[1..]);
    }
  }

  lemma Reachable(events: seq<Event>)
    ensures var r := Replay(Init(), events);
            (r.state == Hidden ==> !r.modifiedWhileRun) &&
            (r.highlight.Some? ==> r.highlight.value == r.current)
  {
    ReplayKeepsInv(Init(), events);
  }

  /** The menu offers exactly the run commands whose handlers act: start
      and debug when PrepareForRun would go ahead, continue, step, step
      into and variables when ContinueRun and PrintVariables act, exit
      when closing is not refused for the run, and stop while a run is
      executing or at a break. */
  lemma MenuMatchesHandlers(s: Ide, hasUserTabs: bool, mode: IntBlock.Mode)
    ensures var m := MenuState(s.state, hasUserTabs);
            (m.start <==> PrepareForRun(s, mode, false, No, "u").started.Some?) &&
            (m.resume <==> ContinueRun(s, mode).request.SetMode?) &&
            (m.variables <==> PrintVariables(s)) &&
            (m.exit <==> TryDialogClose(s, true) == Proceed) &&
            (m.stop <==> s.state == Executing || StopRun(s).request.SetMode?)
  {
  }

  /** A run started from the menu and stopped at its first break keeps the
      editor read-only from compilation on, and continuing removes the
      break's highlight. */
  lemma DebugSession(s: Ide, unit: seq<char>, at: Location)
    requires Inv(s) && (s.state == Hidden || s.state == Shown) && |unit| > 0
    ensures var p := PrepareForRun(s, IntBlock.StepInto, false, No, unit);
            var c := Notify(p.after, RunCompiling);
            var e := Notify(c, RunExecuting);
            var b := BreakRun(e, at);
            var k := ContinueRun(b, IntBlock.Step);
            p.started == Some((unit, IntBlock.StepInto)) && p.after.state == Shown &&
            c.readOnly && e.readOnly && b.readOnly && b.highlight == Some(at) &&
            k.request == SetMode(IntBlock.Step) && k.after.readOnly && k.after.highlight.None?
  {
  }

  /** Closing the run window after a run forgets edits made during it, so
      the next run does not ask about them. */
  lemma ClosedRunForgetsEdits(s: Ide, unsaved: bool, answer: Answer)
    ensures var h := Notify(Notify(s, DocumentModified), RunClosed);
            !h.modifiedWhileRun && RunBeginning(h, unsaved, answer).proceed
  {
  }
}
