/** The bookkeeping the grammar actions do while a unit is parsed
    (ts/api/tsdef/source/parserutil.c): which block new statements go into,
    whether `break` and `continue` sit inside a loop, and how a definition
    error is recorded and turned into a parser decision.

    The C state points at the current block, and each block points at its
    parent. Here the current block is addressed by a cursor: the root block
    (the global block or an action's block) and the path of statement
    indices leading from it down through if and loop statements. */
module ParserUtil {
  import opened Wrappers
  import opened DefTypes
  import opened DefError
  import opened Def

  const UIntModulus: int := 0x1_0000_0000

  /** An `unsigned int` of the source. */
  type UInt32 = x: int | 0 <= x < UIntModulus

  /** TSDEF_UTIL_CONTINUE_PARSE 0, ABORT_STATEMENT -1, ABORT_PARSE -2. */
  datatype UtilResult = ContinueParse | AbortStatement | AbortParse

  /** Where the current block is: `action` None is the global block, Some(i)
      the block of the unit's i-th action; `path` descends through nested
      statement blocks. */
  datatype Cursor = Cursor(action: Option<nat>, path: seq<nat>)

  /** struct tsdef_parser_state. `current` None is a NULL current block. */
  datatype ParserState = ParserState(
    unit: Unit,
    current: Option<Cursor>,
    line: UInt32,
    errors: Option<DefErrorList>,
    errorCount: nat)

  /** The location the source records for the line being parsed: the line
      number minus one, in unsigned arithmetic. */
  function Location(line: UInt32): (loc: UInt32)
    ensures line > 0 ==> loc + 1 == line
    ensures line == 0 ==> loc == UIntModulus - 1
  {
    (line + UIntModulus - 1) % UIntModulus
  }

  // ---------------------------------------------------------------------
  // Navigating the block tree

  /** The block an if or loop statement owns. */
  function NestedBlock(s: Statement): Option<Block>
  {
    match s.kind
    case IfStmt(_, _, body) => Some(body)
    case LoopStmt(_, body) => Some(body)
    case _ => None
  }

  function WithNestedBlock(s: Statement, nb: Block): (r: Statement)
    requires NestedBlock(s).Some?
    ensures NestedBlock(r) == Some(nb) && r.location == s.location
    ensures r.kind.LoopStmt? == s.kind.LoopStmt?
  {
    match s.kind
    case IfStmt(c, e, _) => Statement(s.location, IfStmt(c, e, nb))
    case LoopStmt(l, _) => Statement(s.location, LoopStmt(l, nb))
  }

  /** The block reached from `b` by following `path`, if every step names an
      if or loop statement. */
  function BlockAt(b: Block, path: seq<nat>): Option<Block>
    decreases |path|
  {
    if |path| == 0 then Some(b)
    else if path[0] < |b.stmts| && NestedBlock(b.stmts[path[0]]).Some? then
      BlockAt(NestedBlock(b.stmts[path[0]]).value, path[1..])
    else None
  }

  /** One more step down from a block that exists. */
  lemma {:induction false} BlockAtExtend(b: Block, path: seq<nat>, i: nat)
    requires BlockAt(b, path).Some?
    ensures var inner := BlockAt(b, path).value;
            BlockAt(b, path + [i]) ==
              if i < |inner.stmts| && NestedBlock(inner.stmts[i]).Some? then NestedBlock(inner.stmts[i]) else None
    decreases |path|
  {
    if |path| > 0 {
      assert (path + [i])[1..] == path[1..] + [i];
      BlockAtExtend(NestedBlock(b.stmts[path[0]]).value, path[1..], i);
    }
  }

  /** `b` with the block at `path` replaced by `nb`. */
  function ReplaceAt(b: Block, path: seq<nat>, nb: Block): (r: Block)
    requires BlockAt(b, path).Some?
    ensures BlockAt(r, path) == Some(nb)
    ensures |path| > 0 ==> r.depth == b.depth && r.vars == b.vars && |r.stmts| == |b.stmts|
    ensures forall k :: 0 <= k < |path| ==> ParentIsLoop(r, path, k) == ParentIsLoop(b, path, k)
    decreases |path|
  {
    if |path| == 0 then nb
    else
      var s := b.stmts[path[0]];
      var inner := ReplaceAt(NestedBlock(s).value, path[1..], nb);
      var r := b.(stmts := b.stmts[path[0] := WithNestedBlock(s, inner)]);
      assert forall k :: 1 <= k < |path| ==> path[..k][1..] == path[1..][..k - 1];
      assert forall k :: 0 <= k < |path| - 1 ==>
        ParentIsLoop(inner, path[1..], k) == ParentIsLoop(NestedBlock(s).value, path[1..], k);
      assert forall k :: 1 <= k < |path| ==> ParentIsLoop(r, path, k) == ParentIsLoop(inner, path[1..], k - 1);
      assert forall k :: 1 <= k < |path| ==>
        ParentIsLoop(b, path, k) == ParentIsLoop(NestedBlock(s).value, path[1..], k - 1);
      r
  }

  /** The block whose parent statement is the k-th step of `path` is a loop
      body: the statement at index path[k] of the block at path[..k] is a
      loop. */
  predicate ParentIsLoop(root: Block, path: seq<nat>, k: nat)
    requires k < |path|
  {
    var outer := BlockAt(root, path[..k]);
    outer.Some? && path[k] < |outer.value.stmts| && outer.value.stmts[path[k]].kind.LoopStmt?
  }

  /** Some block from the current one outwards is the body of a loop. The
      root blocks have no parent statement. */
  predicate InLoop(root: Block, path: seq<nat>)
  {
    exists k :: 0 <= k < |path| && ParentIsLoop(root, path, k)
  }

  /** The scan of TSDef_Parser_AddLoopFlowControl: walk from the current
      block towards the root until a block whose parent statement is a loop
      turns up. */
  method ScanForLoop(root: Block, path: seq<nat>) returns (found: bool)
    ensures found <==> InLoop(root, path)
  {
    var scan := |path|;
    found := false;
    while scan > 0
      invariant 0 <= scan <= |path|
      invariant forall k :: scan <= k < |path| ==> !ParentIsLoop(root, path, k)
      decreases scan
    {
      if ParentIsLoop(root, path, scan - 1) {
        found := true;
        return;
      }
      scan := scan - 1;
    }
  }

  // ---------------------------------------------------------------------
  // The current block

  /** The root block an action index selects. */
  function RootBlock(u: Unit, action: Option<nat>): Option<Block>
  {
    match action
    case None => Some(u.global)
    case Some(i) => if i < |u.actions| then Some(u.actions[i].body) else None
  }

  function WithRootBlock(u: Unit, action: Option<nat>, b: Block): (u': Unit)
    requires RootBlock(u, action).Some?
    ensures RootBlock(u', action) == Some(b)
    ensures u'.name == u.name && |u'.actions| == |u.actions|
  {
    match action
    case None => u.(global := b)
    case Some(i) => u.(actions := u.actions[i := u.actions[i].(body := b)])
  }

  function CurrentBlock(st: ParserState): Option<Block>
  {
    if st.current.None? then None
    else
      var root := RootBlock(st.unit, st.current.value.action);
      if root.None? then None else BlockAt(root.value, st.current.value.path)
  }

  /** The state with the current block replaced. */
  function ReplaceCurrent(st: ParserState, nb: Block): (st': ParserState)
    requires CurrentBlock(st).Some?
    ensures CurrentBlock(st') == Some(nb)
    ensures st'.current == st.current && st'.line == st.line
    ensures st'.errors == st.errors && st'.errorCount == st.errorCount
    ensures st'.unit.name == st.unit.name
    ensures var c := st.current.value;
            var root := RootBlock(st.unit, c.action).value;
            var root' := RootBlock(st'.unit, c.action).value;
            forall k :: 0 <= k < |c.path| ==> ParentIsLoop(root', c.path, k) == ParentIsLoop(root, c.path, k)
  {
    var c := st.current.value;
    var root := RootBlock(st.unit, c.action).value;
    st.(unit := WithRootBlock(st.unit, c.action, ReplaceAt(root, c.path, nb)))
  }

  /** Append a statement to the current block at the current location. */
  function AppendToCurrent(st: ParserState, kind: StmtKind): (st': ParserState)
    requires CurrentBlock(st).Some?
    ensures CurrentBlock(st').Some?
    ensures var b := CurrentBlock(st).value;
            var b' := CurrentBlock(st').value;
            b'.depth == b.depth && b'.vars == b.vars &&
            |b'.stmts| == |b.stmts| + 1 && b'.stmts[..|b.stmts|] == b.stmts &&
            b'.stmts[|b.stmts|] == RebaseStmt(Statement(Location(st.line), kind), b.depth + 1)
    ensures st'.current == st.current && st'.errorCount == st.errorCount && st'.errors == st.errors
  {
    var b := CurrentBlock(st).value;
    ReplaceCurrent(st, AppendStatement(b, Statement(Location(st.line), kind)))
  }

  // ---------------------------------------------------------------------
  // Errors

  /** HandleError: syntax errors and misplaced flow control abandon the
      statement, every other error the parse. The error is added to the
      list, when there is one, with no flags and no info; a failing append
      (`appendFails`, an allocation failure) also abandons the parse. The
      error count grows either way. */
  function HandleError(st: ParserState, error: DefErrorKind, location: UInt32, appendFails: bool): (r: (ParserState, UtilResult))
    ensures r.0.errorCount == st.errorCount + 1
    ensures r.0.unit == st.unit && r.0.current == st.current && r.0.line == st.line
    ensures r.1 != ContinueParse
    ensures r.1 == AbortStatement <==>
              (error == Syntax || error == FlowControlOutsideLoop) && !(st.errors.Some? && appendFails)
    ensures st.errors.Some? && !appendFails ==>
              var l := st.errors.value;
              r.0.errors.Some? && r.0.errors.value.reports ==
                l.reports + [DefErrorReport(error, st.unit.name, location, 0, None)]
    ensures st.errors.None? || appendFails ==> r.0.errors == st.errors
  {
    var result := if error == Syntax || error == FlowControlOutsideLoop then AbortStatement else AbortParse;
    if st.errors.Some? then
      if appendFails then
        (st.(errorCount := st.errorCount + 1), AbortParse)
      else
        var l' := AppendDefErrorList(st.errors.value, error, st.unit.name, location, 0, None);
        assert l'.reports == l'.reports[..|st.errors.value.reports|] + [l'.reports[|st.errors.value.reports|]];
        (st.(errors := Some(l'), errorCount := st.errorCount + 1), result)
    else
      (st.(errorCount := st.errorCount + 1), result)
  }

  /** TSDef_Parser_ProcessError: a syntax error at the current location. */
  function ProcessError(st: ParserState, appendFails: bool): (st': ParserState)
    ensures st'.errorCount == st.errorCount + 1
    ensures st.errors.Some? && !appendFails ==>
              st'.errors.Some? && |st'.errors.value.reports| == |st.errors.value.reports| + 1 &&
              st'.errors.value.reports[|st.errors.value.reports|].error == Syntax &&
              st'.errors.value.reports[|st.errors.value.reports|].location == Location(st.line)
  {
    HandleError(st, Syntax, Location(st.line), appendFails).0
  }

  // ---------------------------------------------------------------------
  // Grammar actions

  /** TSDef_Parser_Action: the new action (at the head of the unit's list)
      becomes the current block. */
  function Action(st: ParserState, triggers: seq<FunctionCall>): (st': ParserState)
    ensures st'.current == Some(Cursor(Some(0), []))
    ensures |st'.unit.actions| == |st.unit.actions| + 1 && st'.unit.actions[1..] == st.unit.actions
    ensures CurrentBlock(st').Some? && CurrentBlock(st').value.depth == st.unit.global.depth + 1
    ensures |CurrentBlock(st').value.stmts| == 0 && |CurrentBlock(st').value.vars| == 0
    ensures st'.unit.actions[0].location == Location(st.line) && st'.unit.actions[0].triggers == triggers
  {
    st.(unit := AddAction(st.unit, triggers, Location(st.line)), current := Some(Cursor(Some(0), [])))
  }

  /** TSDef_Parser_EndAction: back to the unit's global block. */
  function EndAction(st: ParserState): (st': ParserState)
    ensures CurrentBlock(st') == Some(st.unit.global)
    ensures st'.unit == st.unit
  {
    st.(current := Some(Cursor(None, [])))
  }

  /** TSDef_Parser_EndBlock: the parent block becomes current. An action's
      block has the global block as parent; the global block has none. */
  function EndBlock(st: ParserState): (st': ParserState)
    requires st.current.Some?
    ensures st'.unit == st.unit
    ensures var c := st.current.value;
            (|c.path| > 0 ==> st'.current == Some(Cursor(c.action, c.path[..|c.path| - 1]))) &&
            (|c.path| == 0 && c.action.Some? ==> st'.current == Some(Cursor(None, []))) &&
            (|c.path| == 0 && c.action.None? ==> st'.current.None?)
  {
    var c := st.current.value;
    if |c.path| > 0 then st.(current := Some(Cursor(c.action, c.path[..|c.path| - 1])))
    else if c.action.Some? then st.(current := Some(Cursor(None, [])))
    else st.(current := None)
  }

  /** TSDef_Parser_AddFunctionCall. */
  function AddFunctionCall(st: ParserState, call: FunctionCall): (r: (ParserState, UtilResult))
    requires CurrentBlock(st).Some?
    ensures r.1 == ContinueParse
    ensures var b := CurrentBlock(st).value;
            CurrentBlock(r.0).Some? && CurrentBlock(r.0).value.stmts == b.stmts + [Statement(Location(st.line), CallStmt(call))]
    ensures r.0.current == st.current
  {
    (AppendToCurrent(st, CallStmt(call)), ContinueParse)
  }

  /** TSDef_Parser_AddAssignment. */
  function AddAssignment(st: ParserState, assignment: Assignment): (r: (ParserState, UtilResult))
    requires CurrentBlock(st).Some?
    ensures r.1 == ContinueParse
    ensures var b := CurrentBlock(st).value;
            CurrentBlock(r.0).Some? && CurrentBlock(r.0).value.stmts == b.stmts + [Statement(Location(st.line), AssignStmt(assignment))]
    ensures r.0.current == st.current
  {
    (AppendToCurrent(st, AssignStmt(assignment)), ContinueParse)
  }

  /** A statement owning a fresh block still owns an empty block, at the
      new depth, once rebased. */
  lemma FreshBlockRebased(loc: nat, kind: StmtKind, d: nat)
    requires NestedBlock(Statement(0, kind)) == Some(InitializeBlock(None))
    ensures NestedBlock(RebaseStmt(Statement(loc, kind), d)) == Some(Block(d, [], []))
    ensures RebaseStmt(Statement(loc, kind), d).kind.LoopStmt? == kind.LoopStmt?
  {
    assert RebaseStmts([], d + 1) == [];
  }

  /** Append a statement that owns a fresh block and make that block
      current. */
  function EnterNewBlock(st: ParserState, kind: StmtKind): (st': ParserState)
    requires CurrentBlock(st).Some?
    requires NestedBlock(Statement(0, kind)) == Some(InitializeBlock(None))
    ensures var c := st.current.value;
            var n := |CurrentBlock(st).value.stmts|;
            st'.current == Some(Cursor(c.action, c.path + [n]))
    ensures CurrentBlock(st') == Some(Block(CurrentBlock(st).value.depth + 1, [], []))
    ensures EndBlock(st').current == st.current
    ensures st'.errorCount == st.errorCount && st'.errors == st.errors
    ensures var c := st.current.value;
            var n := |CurrentBlock(st).value.stmts|;
            var root := RootBlock(st'.unit, c.action);
            root.Some? && BlockAt(root.value, c.path).Some? && n < |BlockAt(root.value, c.path).value.stmts| &&
            BlockAt(root.value, c.path).value.stmts[n].kind.LoopStmt? == kind.LoopStmt?
  {
    var c := st.current.value;
    var b := CurrentBlock(st).value;
    var n := |b.stmts|;
    var appended := AppendToCurrent(st, kind);
    var b' := CurrentBlock(appended).value;
    var root := RootBlock(appended.unit, c.action).value;
    BlockAtExtend(root, c.path, n);
    FreshBlockRebased(Location(st.line), kind, b.depth + 1);
    assert BlockAt(root, c.path) == Some(b');
    assert (c.path + [n])[..|c.path|] == c.path;
    var st' := appended.(current := Some(Cursor(c.action, c.path + [n])));
    assert CurrentBlock(st') == BlockAt(root, c.path + [n]);
    st'
  }

  /** TSDef_Parser_AddIfStatement: the if statement's block becomes current. */
  function AddIfStatement(st: ParserState, cond: Option<Exp>, isElse: bool): (r: (ParserState, UtilResult))
    requires CurrentBlock(st).Some?
    ensures r.1 == ContinueParse
    ensures CurrentBlock(r.0) == Some(Block(CurrentBlock(st).value.depth + 1, [], []))
    ensures EndBlock(r.0).current == st.current
  {
    (EnterNewBlock(st, IfStmt(cond, isElse, InitializeBlock(None))), ContinueParse)
  }

  /** TSDef_Parser_AddLoop with TSDef_DeclareLoop and TSDef_MakeLoopWhile /
      TSDef_MakeLoopFor folded in: the loop's block becomes current, so
      `break` and `continue` are accepted there. */
  function AddLoop(st: ParserState, loop: LoopKind): (r: (ParserState, UtilResult))
    requires CurrentBlock(st).Some?
    ensures r.1 == ContinueParse
    ensures CurrentBlock(r.0) == Some(Block(CurrentBlock(st).value.depth + 1, [], []))
    ensures EndBlock(r.0).current == st.current
    ensures InLoop(RootBlock(r.0.unit, r.0.current.value.action).value, r.0.current.value.path)
  {
    var st' := EnterNewBlock(st, LoopStmt(loop, InitializeBlock(None)));
    var c := st.current.value;
    var n := |CurrentBlock(st).value.stmts|;
    var path' := c.path + [n];
    assert path'[..|c.path|] == c.path;
    assert ParentIsLoop(RootBlock(st'.unit, c.action).value, path', |c.path|);
    (st', ContinueParse)
  }

  /** TSDef_MakeLoopFor: a `for` without its own variable counts with the
      variable its initial assignment sets. */
  function MakeLoopFor(variable: Option<VarRef>, init: Option<Assignment>, toExp: Exp, up: bool): (l: LoopKind)
    requires variable.Some? || init.Some?
    ensures l.ForLoop? && l.init == init && l.toExp == toExp && l.up == up
    ensures variable.Some? ==> l.variable == variable.value
    ensures variable.None? ==> l.variable == init.value.lvalue
  {
    ForLoop(if variable.Some? then variable.value else init.value.lvalue, init, toExp, up)
  }

  /** TSDef_Parser_AddLoopFlowControl: `break` or `continue` is appended only
      when some enclosing block is a loop body; otherwise the error
      FLOW_CONTROL_OUTSIDE_LOOP abandons the statement. */
  method AddLoopFlowControl(st: ParserState, isBreak: bool, appendFails: bool) returns (st': ParserState, result: UtilResult)
    requires CurrentBlock(st).Some?
    ensures var c := st.current.value;
            var inLoop := InLoop(RootBlock(st.unit, c.action).value, c.path);
            var b := CurrentBlock(st).value;
            (inLoop ==> result == ContinueParse && st'.errorCount == st.errorCount &&
                        CurrentBlock(st').Some? &&
                        CurrentBlock(st').value.stmts ==
                          b.stmts + [Statement(Location(st.line), if isBreak then BreakStmt else ContinueStmt)]) &&
            (!inLoop ==> result != ContinueParse && st'.errorCount == st.errorCount + 1 &&
                         st'.unit == st.unit &&
                         (result == AbortStatement <==> !(st.errors.Some? && appendFails)))
  {
    var c := st.current.value;
    var found := ScanForLoop(RootBlock(st.unit, c.action).value, c.path);
    if !found {
      var r := HandleError(st, FlowControlOutsideLoop, Location(st.line), appendFails);
      st', result := r.0, r.1;
      return;
    }
    st' := AppendToCurrent(st, if isBreak then BreakStmt else ContinueStmt);
    result := ContinueParse;
  }

  /** TSDef_Parser_AddFinish: `finish` is accepted in any block. */
  function AddFinish(st: ParserState): (r: (ParserState, UtilResult))
    requires CurrentBlock(st).Some?
    ensures r.1 == ContinueParse
    ensures var b := CurrentBlock(st).value;
            CurrentBlock(r.0).Some? && CurrentBlock(r.0).value.stmts == b.stmts + [Statement(Location(st.line), FinishStmt)]
  {
    (AppendToCurrent(st, FinishStmt), ContinueParse)
  }
}
