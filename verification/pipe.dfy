/** Pipes of the notify plugin (tscore/notify/source/pipe.c:213-800): the
    listen action controller, the poll timer, opening a pipe, and reading
    arguments of the current line. A pipe is named by its id; the module's
    two id hashes map unit invocation ids and pipe ids to pipe ids. The text
    visible in a pipe's file at the time of a request is an input. */
module Pipe {
  import opened Wrappers
  import opened PipeLine
  import opened IdHash
  import IntAction

  /** struct notify_pipe_data: its id, the file position, the current line
      if one is held, and whether a listen action has bound the pipe (set at
      INIT, pipe.c:232; a new pipe leaves action_data unset). */
  datatype PipeData = PipeData(pipeId: nat, pos: nat, current: Option<Held>, bound: bool)

  /** struct notify_module_data. */
  datatype NotifyData = NotifyData(
    nextPipeId: nat,
    pollTimerId: nat,
    pipeHash: IdHash<nat>,
    unitHash: IdHash<nat>,
    open: seq<PipeData>)

  /** The outcome of a call: a value, TSFFI_ERROR_EXCEPTION, or behaviour the
      C code leaves undefined. */
  datatype Call<T> = Ok(value: T) | Raised | Unsafe

  // ---------------------------------------------------------------------
  // Listening (PerformPipeListen, pipe.c:213-289)

  /** A pipe after a read attempt, and whether the action was signalled. */
  datatype Listened = Listened(pipe: PipeData, signaled: bool)

  /** ReadLine into the pipe's current line; the action is signalled when a
      line arrives. */
  function ReadInto(p: PipeData, file: seq<char>): (r: Call<Listened>)
    requires p.pos <= |file|
    ensures r.Ok? ==> r.value.pipe.pipeId == p.pipeId && r.value.pipe.bound == p.bound
    ensures r.Ok? ==> r.value.pipe.pos <= |file|
    ensures r.Ok? ==> (r.value.signaled <==> r.value.pipe.current.Some?)
    ensures r.Ok? && r.value.pipe.current.Some? ==> r.value.pipe.current.value.count >= 1
    ensures !r.Raised?
  {
    match ReadLine(file, p.pos)
    case Got(_, held, next) => Ok(Listened(p.(pos := next, current := Some(held)), true))
    case NoLine(next) => Ok(Listened(p.(pos := next, current := None), false))
    case Undefined => Unsafe
  }

  /** TSFFI_INIT_ACTION: read a line, if one is complete, and bind the
      pipe to the action. */
  function ListenInit(p: PipeData, file: seq<char>): (r: Call<Listened>)
    requires p.pos <= |file|
    ensures r.Ok? ==> (r.value.signaled <==> r.value.pipe.current.Some?)
    ensures r.Ok? ==> r.value.pipe.bound
  {
    ReadInto(p.(bound := true), file)
  }

  /** TSFFI_UPDATE_ACTION: the current line is dropped before the next one
      is read, so it is never seen twice. */
  function ListenUpdate(p: PipeData, file: seq<char>): (r: Call<Listened>)
    requires p.pos <= |file|
    ensures r.Ok? ==> (r.value.signaled <==> r.value.pipe.current.Some?)
    ensures r.Ok? && r.value.pipe.current.Some? ==> r.value.pipe.pos > p.pos
  {
    ReadInto(p.(current := None), file)
  }

  /** TSFFI_QUERY_ACTION: TRIGGERED while a line is held, else PENDING; a
      pipe listen never finishes. */
  function ListenQuery(p: PipeData): (state: nat)
    ensures state != IntAction.TriggerFinished
    ensures state == IntAction.TriggerTriggered <==> p.current.Some?
  {
    if p.current.Some? then IntAction.TriggerTriggered else IntAction.TriggerPending
  }

  /** A line read by INIT or UPDATE is exactly what QUERY then reports, and
      every argument of it can be read back. */
  lemma ListenThenQuery(p: PipeData, file: seq<char>, k: nat)
    requires p.pos <= |file|
    requires ListenUpdate(p, file).Ok?
    ensures var q := ListenUpdate(p, file).value;
            ListenQuery(q.pipe) == IntAction.TriggerTriggered <==> q.signaled
    ensures var q := ListenUpdate(p, file).value;
            var line := ReadLine(file, p.pos);
            q.signaled ==> line.Got? && k < q.pipe.current.value.count ==>
              ExtractArgument(q.pipe.current, k) == Tokens(line.text)[k]
  {
    var line := ReadLine(file, p.pos);
    if line.Got? && k < |Tokens(line.text)| {
      ExtractArgumentCorrect(line.text, k);
    }
  }

  // ---------------------------------------------------------------------
  // The poll timer (PipePollTimer, pipe.c:306-347)

  /** One pipe's turn in the poll: a held line is left alone; otherwise a
      line is read and its action signalled, which is undefined when no
      listen action ever bound the pipe. */
  function PollOne(p: PipeData, file: seq<char>): (r: Call<Listened>)
    requires p.pos <= |file|
    ensures p.current.Some? ==> r == Ok(Listened(p, false))
    ensures r.Ok? && r.value.signaled ==> p.bound && p.current.None?
    ensures r.Ok? ==> r.value.pipe.pipeId == p.pipeId && (r.value.signaled <==> r.value.pipe.current.Some? && p.current.None?)
  {
    if p.current.Some? then Ok(Listened(p, false))
    else
      var q := ReadInto(p, file);
      if q.Ok? && q.value.signaled && !p.bound then Unsafe else q
  }

  /** Each open pipe without a current line tries to read one; the result
      lists the pipes in order with whether each was signalled. */
  function Poll(pipes: seq<PipeData>, files: seq<seq<char>>): (r: Call<seq<Listened>>)
    requires |files| == |pipes|
    requires forall i :: 0 <= i < |pipes| ==> pipes[i].pos <= |files[i]|
    ensures r.Ok? ==> |r.value| == |pipes|
    ensures r.Ok? ==> forall i :: 0 <= i < |pipes| ==> PollOne(pipes[i], files[i]) == Ok(r.value[i])
  {
    if |pipes| == 0 then Ok([])
    else
      var head := PollOne(pipes[0], files[0]);
      if !head.Ok? then Unsafe
      else match Poll(pipes[1..], files[1..])
        case Ok(rest) => Ok([head.value] + rest)
        case _ => Unsafe
  }

  // ---------------------------------------------------------------------
  // Polling start and stop (pipe.c:349-410)

  /** StartPipePolling: SetTimer's id (0 on failure) and whether AddID
      succeeds are inputs. None is the exception return. */
  function StartPolling(md: NotifyData, timerId: nat, addOk: bool): (r: Option<NotifyData>)
    ensures r.Some? <==> timerId != 0 && addOk
    ensures r.Some? ==> r.value == md.(pollTimerId := timerId)
  {
    if timerId == 0 || !addOk then None else Some(md.(pollTimerId := timerId))
  }

  /** StopPipePolling: kill the timer and clear its id. */
  function StopPolling(md: NotifyData): (r: NotifyData)
    ensures r.pollTimerId == 0 && r.open == md.open
  {
    md.(pollTimerId := 0)
  }

  /** Notify_StopPipePolling as written: it runs StartPipePolling, so a
      successful call leaves a poll timer armed and the pipes open. */
  function NotifyStopPolling(md: NotifyData, timerId: nat, addOk: bool): (r: Option<NotifyData>)
    ensures r.Some? <==> timerId != 0 && addOk
    ensures r.Some? ==> r.value.pollTimerId == timerId != 0 && r.value.open == md.open
  {
    StartPolling(md, timerId, addOk)
  }

  /** Notify_DestroyPipes (pipe.c:412-434): polling stops and every pipe is
      closed. */
  function DestroyPipes(md: NotifyData): (r: NotifyData)
    ensures r.open == [] && r.pollTimerId == 0 && r.nextPipeId == md.nextPipeId
  {
    StopPolling(md).(open := [])
  }

  /** Kept as written: a successful Notify_StopPipePolling leaves a poll
      timer running, where StopPipePolling would have cleared it. */
  lemma StopPollingStarts(md: NotifyData, timerId: nat)
    requires timerId != 0
    ensures NotifyStopPolling(md, timerId, true).Some?
    ensures NotifyStopPolling(md, timerId, true).value.pollTimerId != 0
    ensures StopPolling(md).pollTimerId == 0
  {
  }

  // ---------------------------------------------------------------------
  // Opening a pipe (Notify_Pipe, pipe.c:436-534)

  /** The host's answers while a pipe is opened: malloc, CreateFile and the
      two AddID allocations. */
  datatype OpenHost = OpenHost(allocOk: bool, fileOk: bool, unitAddOk: bool, pipeAddOk: bool)

  predicate HasPipe(md: NotifyData, id: nat)
  {
    exists i :: 0 <= i < |md.open| && md.open[i].pipeId == id
  }

  /** The bookkeeping Notify_Pipe keeps: open pipes have distinct ids below
      next_pipe_id, and both hashes refer only to open pipes, the pipe hash
      by their own ids. */
  ghost predicate PipesValid(md: NotifyData)
  {
    Valid(md.pipeHash) && Valid(md.unitHash) &&
    (forall i :: 0 <= i < |md.open| ==> md.open[i].pipeId < md.nextPipeId) &&
    (forall i, j :: 0 <= i < j < |md.open| ==> md.open[i].pipeId != md.open[j].pipeId) &&
    (forall id: nat :: Get(md.pipeHash, id).Some? ==> Get(md.pipeHash, id) == Some(id) && HasPipe(md, id)) &&
    (forall u: nat :: Get(md.unitHash, u).Some? ==> HasPipe(md, Get(md.unitHash, u).value))
  }

  /** Notify_Pipe: a new pipe gets next_pipe_id, is entered in the unit hash
      under the invocation id and in the pipe hash under its own id, and is
      put at the head of the open list. Failures raise; a failure of the
      second AddID removes the invocation id from the pipe hash, as
      written (pipe.c:526). */
  function OpenPipe(md: NotifyData, unitInvocation: nat, host: OpenHost): (r: Call<(NotifyData, nat)>)
    requires Shaped(md.pipeHash) && Shaped(md.unitHash)
    ensures r.Ok? ==> r.value.1 == md.nextPipeId && r.value.0.nextPipeId == md.nextPipeId + 1
    ensures r.Ok? ==> r.value.0.open == [PipeData(md.nextPipeId, 0, None, false)] + md.open
    ensures r.Ok? ==> Shaped(r.value.0.pipeHash) && Shaped(r.value.0.unitHash)
    ensures !r.Unsafe?
  {
    if !host.allocOk || !host.fileOk then Raised
    else
      var id := md.nextPipeId;
      match Add(md.unitHash, unitInvocation, id, host.unitAddOk)
      case None => Raised
      case Some(units) =>
        match Add(md.pipeHash, id, id, host.pipeAddOk)
        case None => Raised
        case Some(pipes) =>
          Ok((NotifyData(id + 1, md.pollTimerId, pipes, units, [PipeData(id, 0, None, false)] + md.open), id))
  }

  /** The module state a failed second AddID leaves behind: the unit hash
      keeps the freed pipe and the pipe hash loses the entry whose id equals
      the invocation id. */
  function OpenPipeLeftover(md: NotifyData, unitInvocation: nat, host: OpenHost): (r: NotifyData)
    requires Shaped(md.pipeHash) && Shaped(md.unitHash)
    requires host.allocOk && host.fileOk
    requires Add(md.unitHash, unitInvocation, md.nextPipeId, host.unitAddOk).Some?
    requires Add(md.pipeHash, md.nextPipeId, md.nextPipeId, host.pipeAddOk).None?
    ensures Shaped(r.unitHash) && Shaped(r.pipeHash)
  {
    md.(unitHash := Add(md.unitHash, unitInvocation, md.nextPipeId, host.unitAddOk).value,
        pipeHash := Remove(md.pipeHash, unitInvocation))
  }

  /** A successful open keeps the bookkeeping, and the new pipe is found
      under both names. */
  lemma OpenPipeValid(md: NotifyData, unitInvocation: nat, host: OpenHost)
    requires PipesValid(md) && OpenPipe(md, unitInvocation, host).Ok?
    ensures PipesValid(OpenPipe(md, unitInvocation, host).value.0)
    ensures var (r, id) := OpenPipe(md, unitInvocation, host).value;
            Get(r.unitHash, unitInvocation) == Some(id) && Get(r.pipeHash, id) == Some(id)
  {
    var id := md.nextPipeId;
    var r := OpenPipe(md, unitInvocation, host).value.0;
    var units := Add(md.unitHash, unitInvocation, id, host.unitAddOk).value;
    var pipes := Add(md.pipeHash, id, id, host.pipeAddOk).value;
    assert r == NotifyData(id + 1, md.pollTimerId, pipes, units, [PipeData(id, 0, None, false)] + md.open);
    AddValid(md.unitHash, unitInvocation, id, host.unitAddOk);
    AddValid(md.pipeHash, id, id, host.pipeAddOk);
    OpenKeepsIds(md, r);
    OpenKeepsPipeHash(md, r, host.pipeAddOk);
    OpenKeepsUnitHash(md, r, unitInvocation, host.unitAddOk);
    AddUpdates(md.unitHash, unitInvocation, id, host.unitAddOk, unitInvocation);
    AddUpdates(md.pipeHash, id, id, host.pipeAddOk, id);
  }

  /** The shape a successful open gives the module state. */
  ghost predicate Opened(md: NotifyData, r: NotifyData)
  {
    r.nextPipeId == md.nextPipeId + 1 &&
    r.open == [PipeData(md.nextPipeId, 0, None, false)] + md.open
  }

  lemma OpenedHas(md: NotifyData, r: NotifyData, id: nat)
    requires Opened(md, r)
    ensures HasPipe(r, id) <==> id == md.nextPipeId || HasPipe(md, id)
  {
    if HasPipe(md, id) {
      var i :| 0 <= i < |md.open| && md.open[i].pipeId == id;
      assert r.open[i + 1] == md.open[i];
    }
    if HasPipe(r, id) && id != md.nextPipeId {
      var i :| 0 <= i < |r.open| && r.open[i].pipeId == id;
      assert md.open[i - 1] == r.open[i];
    }
    assert r.open[0].pipeId == md.nextPipeId;
  }

  lemma OpenKeepsIds(md: NotifyData, r: NotifyData)
    requires PipesValid(md) && Opened(md, r)
    ensures forall i :: 0 <= i < |r.open| ==> r.open[i].pipeId < r.nextPipeId
    ensures forall i, j :: 0 <= i < j < |r.open| ==> r.open[i].pipeId != r.open[j].pipeId
  {
    forall i, j | 0 <= i < j < |r.open| ensures r.open[i].pipeId != r.open[j].pipeId {
      assert r.open[j] == md.open[j - 1];
      if i > 0 {
        assert r.open[i] == md.open[i - 1];
      }
    }
  }

  lemma OpenKeepsPipeHash(md: NotifyData, r: NotifyData, allocOk: bool)
    requires PipesValid(md) && Opened(md, r)
    requires Add(md.pipeHash, md.nextPipeId, md.nextPipeId, allocOk) == Some(r.pipeHash)
    ensures forall x: nat :: Get(r.pipeHash, x).Some? ==> Get(r.pipeHash, x) == Some(x) && HasPipe(r, x)
  {
    forall x: nat | Get(r.pipeHash, x).Some?
      ensures Get(r.pipeHash, x) == Some(x) && HasPipe(r, x)
    {
      AddUpdates(md.pipeHash, md.nextPipeId, md.nextPipeId, allocOk, x);
      OpenedHas(md, r, x);
    }
  }

  lemma OpenKeepsUnitHash(md: NotifyData, r: NotifyData, unitInvocation: nat, allocOk: bool)
    requires PipesValid(md) && Opened(md, r)
    requires Add(md.unitHash, unitInvocation, md.nextPipeId, allocOk) == Some(r.unitHash)
    ensures forall u: nat :: Get(r.unitHash, u).Some? ==> HasPipe(r, Get(r.unitHash, u).value)
  {
    forall u: nat | Get(r.unitHash, u).Some?
      ensures HasPipe(r, Get(r.unitHash, u).value)
    {
      AddUpdates(md.unitHash, unitInvocation, md.nextPipeId, allocOk, u);
      OpenedHas(md, r, Get(r.unitHash, u).value);
    }
  }

  /** Kept as written: when the pipe hash cannot take the new pipe, the unit
      hash still names the pipe that was just freed, so the bookkeeping
      breaks. */
  lemma OpenPipeFailureDangles(md: NotifyData, unitInvocation: nat, host: OpenHost)
    requires PipesValid(md)
    requires host.allocOk && host.fileOk
    requires Add(md.unitHash, unitInvocation, md.nextPipeId, host.unitAddOk).Some?
    requires Add(md.pipeHash, md.nextPipeId, md.nextPipeId, host.pipeAddOk).None?
    ensures OpenPipe(md, unitInvocation, host).Raised?
    ensures Get(OpenPipeLeftover(md, unitInvocation, host).unitHash, unitInvocation) == Some(md.nextPipeId)
    ensures !HasPipe(OpenPipeLeftover(md, unitInvocation, host), md.nextPipeId)
    ensures !PipesValid(OpenPipeLeftover(md, unitInvocation, host))
  {
    AddUpdates(md.unitHash, unitInvocation, md.nextPipeId, host.unitAddOk, unitInvocation);
    var r := OpenPipeLeftover(md, unitInvocation, host);
    forall i | 0 <= i < |r.open| ensures r.open[i].pipeId != md.nextPipeId {
      assert r.open[i] == md.open[i];
    }
  }

  // ---------------------------------------------------------------------
  // Reading arguments (Notify_ReadPipe / Notify_HReadPipe, pipe.c:536-664)

  /** The open pipe with id `id`, the first in list order. */
  function FindPipe(open: seq<PipeData>, id: nat): (r: Option<PipeData>)
    ensures r.Some? ==> r.value in open && r.value.pipeId == id
    ensures r.None? <==> forall i :: 0 <= i < |open| ==> open[i].pipeId != id
  {
    if |open| == 0 then None
    else if open[0].pipeId == id then Some(open[0])
    else FindPipe(open[1..], id)
  }

  /** The argument read from the pipe a hash entry names: an absent entry
      raises, and one naming a freed pipe is undefined. */
  function ReadVia(md: NotifyData, entry: Option<nat>, argument: int): (r: Call<seq<char>>)
    ensures entry.None? ==> r.Raised?
    ensures r.Ok? ==> (entry.Some? && FindPipe(md.open, entry.value).Some? &&
              r.value == ExtractArgument(FindPipe(md.open, entry.value).value.current, argument))
  {
    if entry.None? then Raised
    else match FindPipe(md.open, entry.value)
      case None => Unsafe
      case Some(p) => Ok(ExtractArgument(p.current, argument))
  }

  /** Notify_ReadPipe: the pipe of the calling unit invocation. */
  function ReadPipe(md: NotifyData, unitInvocation: nat, argument: int): (r: Call<seq<char>>)
    requires Shaped(md.unitHash)
    ensures Get(md.unitHash, unitInvocation).None? ==> r.Raised?
  {
    ReadVia(md, Get(md.unitHash, unitInvocation), argument)
  }

  /** Notify_HReadPipe: the pipe named by a handle. */
  function HReadPipe(md: NotifyData, handle: nat, argument: int): (r: Call<seq<char>>)
    requires Shaped(md.pipeHash)
    ensures Get(md.pipeHash, handle).None? ==> r.Raised?
  {
    ReadVia(md, Get(md.pipeHash, handle), argument)
  }

  /** With the bookkeeping intact, a read through either hash never touches
      a freed pipe. */
  lemma ReadsAreDefined(md: NotifyData, unitInvocation: nat, handle: nat, argument: int)
    requires PipesValid(md)
    ensures !ReadPipe(md, unitInvocation, argument).Unsafe?
    ensures !HReadPipe(md, handle, argument).Unsafe?
    ensures Get(md.pipeHash, handle).Some? ==>
              HReadPipe(md, handle, argument) == Ok(ExtractArgument(FindPipe(md.open, handle).value.current, argument))
  {
  }

  /** The pipe a listen action binds at INIT (pipe.c:698-709, 766-776):
      Notify_Action_ListenPipe looks in the unit hash, HListenPipe in the
      pipe hash; no entry raises. */
  function ListenTarget(md: NotifyData, byHandle: bool, key: nat): (r: Call<PipeData>)
    requires Shaped(md.unitHash) && Shaped(md.pipeHash)
    ensures r.Ok? ==> r.value in md.open
    ensures (if byHandle then Get(md.pipeHash, key) else Get(md.unitHash, key)).None? ==> r.Raised?
  {
    var entry := if byHandle then Get(md.pipeHash, key) else Get(md.unitHash, key);
    if entry.None? then Raised
    else match FindPipe(md.open, entry.value)
      case None => Unsafe
      case Some(p) => Ok(p)
  }

  /** Notify_Pipe for each invocation in turn, stopping at the first
      failure. */
  function OpenMany(md: NotifyData, units: seq<nat>, host: OpenHost): (r: Call<NotifyData>)
    requires Shaped(md.pipeHash) && Shaped(md.unitHash)
    ensures r.Ok? ==> r.value.nextPipeId == md.nextPipeId + |units|
    decreases |units|
  {
    if |units| == 0 then Ok(md)
    else match OpenPipe(md, units[0], host)
      case Ok((m1, _)) => OpenMany(m1, units[1..], host)
      case Raised => Raised
      case Unsafe => Unsafe
  }

  /** Pipe ids are issued in sequence: opening n pipes in a row hands out
      next_pipe_id, next_pipe_id + 1, ..., the newest at the head of the
      open list, and the bookkeeping holds throughout. */
  lemma {:induction false} OpenSequential(md: NotifyData, units: seq<nat>, host: OpenHost)
    requires PipesValid(md)
    requires host.allocOk && host.fileOk && host.unitAddOk && host.pipeAddOk
    ensures OpenMany(md, units, host).Ok?
    ensures var r := OpenMany(md, units, host).value;
            PipesValid(r) && |r.open| == |md.open| + |units| && r.open[|units|..] == md.open &&
            forall i :: 0 <= i < |units| ==> r.open[i].pipeId == md.nextPipeId + |units| - 1 - i
    decreases |units|
  {
    if |units| > 0 {
      OpenPipeValid(md, units[0], host);
      var (m1, _) := OpenPipe(md, units[0], host).value;
      OpenSequential(m1, units[1..], host);
      var r := OpenMany(md, units, host).value;
      assert r == OpenMany(m1, units[1..], host).value;
      assert r.open[|units| - 1..] == m1.open;
      assert r.open[|units|..] == m1.open[1..];
    }
  }
}
