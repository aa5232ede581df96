/** The definition tree a Trigger Script unit compiles to (def.h), and the
    scope and construction operations of ts/api/tsdef/source/def.c.

    The C program links blocks, statements and expressions with pointers;
    here they form an immutable tree. A block's parent chain is passed as a
    sequence of blocks, outermost first, and a resolved variable reference
    records the depth, slot index and type of the variable it names. */
module Def {
  import opened Wrappers
  import opened DefTypes
  import DefFFI

  /** struct tsdef_variable: `index` is the slot the interpreter uses. */
  datatype Variable = Variable(name: string, ty: PrimType, index: nat)

  /** What the resolver records in a reference: the declaring block's depth,
      the slot index, and the declared type. */
  datatype VarBinding = VarBinding(depth: nat, index: nat, ty: PrimType)

  datatype VarRef = VarRef(name: string, binding: Option<VarBinding>)

  /** The module object a call resolved to. A unit call converts its
      arguments to the callee's input types and yields its output variable's
      type (VOID without an output); a plugin call converts them to the types
      of its FFI signature (tsffi codes). */
  datatype CallTarget =
    | UnitTarget(unitName: string, inputTypes: seq<PrimType>, outputType: Option<PrimType>)
    | FFITarget(ffiName: string, ffiArgTypes: seq<nat>, ffiOutputType: nat)

  /** struct tsdef_function_call. A present argument list is never empty,
      so the empty sequence stands for the NULL list. */
  datatype FunctionCall = FunctionCall(name: string, arguments: seq<Exp>, target: Option<CallTarget>)

  /** struct tsdef_exp_value_type: one operand. */
  datatype ExpValue =
    | BoolConst(b: bool)
    | IntConst(i: int)
    | RealConst(r: real)
    | StrConst(s: string)
    | CallValue(call: FunctionCall)
    | VarValue(v: VarRef)
    | SubExp(e: Exp)

  /** One node of a primary chain: the operand and the operator that follows
      it. The last node's operator is VALUE. */
  datatype PrimaryNode = PrimaryNode(op: PrimaryOp, value: ExpValue)

  /** struct tsdef_primary_exp; `negate` is TSDEF_PRIMARY_EXP_FLAG_NEGATE. */
  datatype PrimaryExp = PrimaryExp(nodes: seq<PrimaryNode>, effectiveType: PrimType, negate: bool)

  /** One link of a comparison chain `a < b <= c`: a node compares its left
      operand with the next node's left operand; only the last node holds a
      right operand. `ty` is the promoted type the resolver fixes. */
  datatype ComparisonNode = ComparisonNode(op: ComparisonOp, ty: PrimType, left: PrimaryExp, right: Option<PrimaryExp>)

  /** One link of an `and`/`or` chain; the NOT flags apply to the operands. */
  datatype LogicalNode = LogicalNode(op: LogicalOp, left: Option<Exp>, leftNot: bool, right: Option<Exp>, rightNot: bool)

  datatype Exp =
    | Primary(p: PrimaryExp)
    | Comparison(cnodes: seq<ComparisonNode>)
    | Logical(lnodes: seq<LogicalNode>)

  datatype Assignment = Assignment(lvalue: VarRef, rvalue: Exp)

  /** TSDEF_LOOP_TYPE_*: 0 is a plain `loop`; a for loop counts up when its
      UP flag is set and down otherwise. */
  datatype LoopKind =
    | PlainLoop
    | WhileLoop(cond: Exp)
    | ForLoop(variable: VarRef, init: Option<Assignment>, toExp: Exp, up: bool)

  /** TSDEF_STATEMENT_TYPE_*. An if statement with the ELSE flag continues the
      chain of the if before it; `else` alone has no condition. */
  datatype StmtKind =
    | CallStmt(call: FunctionCall)
    | AssignStmt(assignment: Assignment)
    | IfStmt(cond: Option<Exp>, isElse: bool, body: Block)
    | LoopStmt(loop: LoopKind, body: Block)
    | ContinueStmt
    | BreakStmt
    | FinishStmt

  datatype Statement = Statement(location: nat, kind: StmtKind)

  /** struct tsdef_block: variables in declaration order (slot i is
      `vars[i]`), statements in program order. */
  datatype Block = Block(depth: nat, vars: seq<Variable>, stmts: seq<Statement>)

  datatype Action = Action(triggers: seq<FunctionCall>, location: nat, body: Block)

  datatype Input = Input(variables: seq<VarRef>, location: nat)

  datatype Output = Output(assignment: Assignment, location: nat)

  /** struct tsdef_unit; `actions` is in list order, newest first. */
  datatype Unit = Unit(name: string, unitId: nat, input: Option<Input>, output: Option<Output>,
                       global: Block, actions: seq<Action>)

  /** InitializeBlock: depth 0 without a parent, else one below it. */
  function InitializeBlock(parentDepth: Option<nat>): (b: Block)
    ensures parentDepth.None? ==> b.depth == 0
    ensures parentDepth.Some? ==> b.depth == parentDepth.value + 1
    ensures |b.vars| == 0 && |b.stmts| == 0
  {
    Block(if parentDepth.Some? then parentDepth.value + 1 else 0, [], [])
  }

  // ---------------------------------------------------------------------
  // Block depths

  /** Every block nested in `b` sits one level below its parent. */
  predicate WellDepthed(b: Block, d: nat)
    decreases b
  {
    b.depth == d &&
    forall i :: 0 <= i < |b.stmts| ==> StmtWellDepthed(b.stmts[i], d + 1)
  }

  predicate StmtWellDepthed(s: Statement, d: nat)
    decreases s
  {
    match s.kind
    case IfStmt(_, _, body) => WellDepthed(body, d)
    case LoopStmt(_, body) => WellDepthed(body, d)
    case _ => true
  }

  /** RebaseStatementBlockDepth: give `b` depth `d` and every nested block the
      depth below its parent. */
  function RebaseBlock(b: Block, d: nat): Block
    decreases b
  {
    Block(d, b.vars, RebaseStmts(b.stmts, d + 1))
  }

  function RebaseStmts(stmts: seq<Statement>, d: nat): (r: seq<Statement>)
    ensures |r| == |stmts|
    decreases stmts
  {
    if |stmts| == 0 then []
    else [RebaseStmt(stmts[0], d)] + RebaseStmts(stmts[1..], d)
  }

  function RebaseStmt(s: Statement, d: nat): Statement
    decreases s
  {
    match s.kind
    case IfStmt(c, e, body) => Statement(s.location, IfStmt(c, e, RebaseBlock(body, d)))
    case LoopStmt(l, body) => Statement(s.location, LoopStmt(l, RebaseBlock(body, d)))
    case _ => s
  }

  /** Rebasing makes a block well-depthed at the requested depth. */
  lemma {:induction false} RebaseBlockWellDepthed(b: Block, d: nat)
    ensures WellDepthed(RebaseBlock(b, d), d)
    decreases b, 2
  {
    RebaseStmtsWellDepthed(b.stmts, d + 1);
  }

  lemma {:induction false} RebaseStmtsWellDepthed(stmts: seq<Statement>, d: nat)
    ensures forall i :: 0 <= i < |stmts| ==> StmtWellDepthed(RebaseStmts(stmts, d)[i], d)
    decreases stmts, 1
  {
    if |stmts| > 0 {
      RebaseStmtWellDepthed(stmts[0], d);
      RebaseStmtsWellDepthed(stmts[1..], d);
      var r := RebaseStmts(stmts, d);
      forall i | 0 <= i < |stmts|
        ensures StmtWellDepthed(r[i], d)
      {
        if i > 0 {
          assert r[i] == RebaseStmts(stmts[1..], d)[i - 1];
        }
      }
    }
  }

  lemma {:induction false} RebaseStmtWellDepthed(s: Statement, d: nat)
    ensures StmtWellDepthed(RebaseStmt(s, d), d)
    decreases s, 0
  {
    match s.kind
    case IfStmt(_, _, body) => RebaseBlockWellDepthed(body, d);
    case LoopStmt(_, body) => RebaseBlockWellDepthed(body, d);
    case _ =>
  }

  /** Rebasing a block that already has the right depths changes nothing. */
  lemma {:induction false} RebaseIdentity(b: Block, d: nat)
    requires WellDepthed(b, d)
    ensures RebaseBlock(b, d) == b
    decreases b, 2
  {
    RebaseStmtsIdentity(b.stmts, d + 1);
  }

  lemma {:induction false} RebaseStmtsIdentity(stmts: seq<Statement>, d: nat)
    requires forall i :: 0 <= i < |stmts| ==> StmtWellDepthed(stmts[i], d)
    ensures RebaseStmts(stmts, d) == stmts
    decreases stmts, 1
  {
    if |stmts| > 0 {
      RebaseStmtIdentity(stmts[0], d);
      RebaseStmtsIdentity(stmts[1..], d);
      assert [stmts[0]] + stmts[1..] == stmts;
    }
  }

  lemma {:induction false} RebaseStmtIdentity(s: Statement, d: nat)
    requires StmtWellDepthed(s, d)
    ensures RebaseStmt(s, d) == s
    decreases s, 0
  {
    match s.kind
    case IfStmt(_, _, body) => RebaseIdentity(body, d);
    case LoopStmt(_, body) => RebaseIdentity(body, d);
    case _ =>
  }

  /** A block with every depth set to zero: two blocks that erase to the
      same block differ at most in their depths. */
  function EraseBlock(b: Block): Block
    decreases b
  {
    Block(0, b.vars, EraseStmts(b.stmts))
  }

  function EraseStmts(stmts: seq<Statement>): (r: seq<Statement>)
    ensures |r| == |stmts|
    decreases stmts
  {
    if |stmts| == 0 then []
    else [EraseStmt(stmts[0])] + EraseStmts(stmts[1..])
  }

  function EraseStmt(s: Statement): Statement
    decreases s
  {
    match s.kind
    case IfStmt(c, e, body) => Statement(s.location, IfStmt(c, e, EraseBlock(body)))
    case LoopStmt(l, body) => Statement(s.location, LoopStmt(l, EraseBlock(body)))
    case _ => s
  }

  /** Rebasing touches nothing but depths. */
  lemma {:induction false} RebaseBlockErases(b: Block, d: nat)
    ensures EraseBlock(RebaseBlock(b, d)) == EraseBlock(b)
    decreases b, 2
  {
    RebaseStmtsErases(b.stmts, d + 1);
  }

  lemma {:induction false} RebaseStmtsErases(stmts: seq<Statement>, d: nat)
    ensures EraseStmts(RebaseStmts(stmts, d)) == EraseStmts(stmts)
    decreases stmts, 1
  {
    if |stmts| > 0 {
      RebaseStmtErases(stmts[0], d);
      RebaseStmtsErases(stmts[1..], d);
      var r := RebaseStmts(stmts, d);
      assert r[0] == RebaseStmt(stmts[0], d) && r[1..] == RebaseStmts(stmts[1..], d);
    }
  }

  lemma {:induction false} RebaseStmtErases(s: Statement, d: nat)
    ensures EraseStmt(RebaseStmt(s, d)) == EraseStmt(s)
    decreases s, 0
  {
    match s.kind
    case IfStmt(_, _, body) => RebaseBlockErases(body, d);
    case LoopStmt(_, body) => RebaseBlockErases(body, d);
    case _ =>
  }

  // ---------------------------------------------------------------------
  // Statements

  /** TSDef_AppendStatement: the statement goes at the tail of the block (so
      statement_count grows by one) and a nested block is rebased one level
      below the block it now belongs to. */
  function AppendStatement(b: Block, s: Statement): (b': Block)
    ensures b'.depth == b.depth && b'.vars == b.vars
    ensures |b'.stmts| == |b.stmts| + 1 && b'.stmts[..|b.stmts|] == b.stmts
    ensures b'.stmts[|b.stmts|].location == s.location
    ensures EraseStmt(b'.stmts[|b.stmts|]) == EraseStmt(s)
    ensures StmtWellDepthed(s, b.depth + 1) ==> b'.stmts[|b.stmts|] == s
    ensures StmtWellDepthed(b'.stmts[|b.stmts|], b.depth + 1)
    ensures WellDepthed(b, b.depth) ==> WellDepthed(b', b.depth)
  {
    RebaseStmtWellDepthed(s, b.depth + 1);
    RebaseStmtErases(s, b.depth + 1);
    var b' := Block(b.depth, b.vars, b.stmts + [RebaseStmt(s, b.depth + 1)]);
    assert b'.stmts[..|b.stmts|] == b.stmts;
    if StmtWellDepthed(s, b.depth + 1) then RebaseStmtIdentity(s, b.depth + 1); b' else b'
  }

  // ---------------------------------------------------------------------
  // Variables

  /** Slot of the most recently declared variable of that name in `vars`
      (the source prepends new variables and scans from the head). */
  function FindInBlock(vars: seq<Variable>, name: string): (r: Option<nat>)
    ensures r.Some? ==> r.value < |vars| && vars[r.value].name == name &&
                        forall j :: r.value < j < |vars| ==> vars[j].name != name
    ensures r.None? ==> forall j :: 0 <= j < |vars| ==> vars[j].name != name
  {
    if |vars| == 0 then None
    else if vars[|vars| - 1].name == name then Some(|vars| - 1)
    else FindInBlock(vars[..|vars| - 1], name)
  }

  /** Where a variable was found: position in the scope chain and slot. */
  datatype VarLocation = VarLocation(scope: nat, index: nat)

  /** TSDef_LookupVariable: search the chain from the innermost block
      (last) outwards; the innermost declaration wins. */
  function LookupVariable(chain: seq<Block>, name: string): (r: Option<VarLocation>)
    ensures r.Some? ==> r.value.scope < |chain| && r.value.index < |chain[r.value.scope].vars| &&
                        chain[r.value.scope].vars[r.value.index].name == name &&
                        (forall j :: r.value.index < j < |chain[r.value.scope].vars| ==>
                           chain[r.value.scope].vars[j].name != name) &&
                        (forall k, j :: r.value.scope < k < |chain| && 0 <= j < |chain[k].vars| ==>
                           chain[k].vars[j].name != name)
    ensures r.None? ==> forall k, j :: 0 <= k < |chain| && 0 <= j < |chain[k].vars| ==>
                          chain[k].vars[j].name != name
  {
    if |chain| == 0 then None
    else
      match FindInBlock(chain[|chain| - 1].vars, name)
      case Some(i) => Some(VarLocation(|chain| - 1, i))
      case None =>
        var outer := LookupVariable(chain[..|chain| - 1], name);
        assert forall k :: 0 <= k < |chain| - 1 ==> chain[..|chain| - 1][k] == chain[k];
        outer
  }

  /** The binding a reference receives for a variable found in the chain. */
  function BindingAt(chain: seq<Block>, loc: VarLocation): VarBinding
    requires loc.scope < |chain| && loc.index < |chain[loc.scope].vars|
  {
    var v := chain[loc.scope].vars[loc.index];
    VarBinding(chain[loc.scope].depth, v.index, v.ty)
  }

  /** Slots are numbered by position. */
  predicate SlotsNumbered(b: Block)
  {
    forall i :: 0 <= i < |b.vars| ==> b.vars[i].index == i
  }

  /** TSDef_DeclareVariable: the new variable takes the next slot
      (variable_count before the call) and starts DELAYED. */
  function DeclareVariable(b: Block, name: string): (r: (Block, Variable))
    ensures r.1 == Variable(name, Delayed, |b.vars|)
    ensures r.0 == b.(vars := b.vars + [r.1])
    ensures SlotsNumbered(b) ==> SlotsNumbered(r.0)
  {
    var v := Variable(name, Delayed, |b.vars|);
    (b.(vars := b.vars + [v]), v)
  }

  /** A declared variable is found by a lookup in its own block, and distinct
      declarations in one block get distinct slots. */
  lemma DeclareThenLookup(chain: seq<Block>, name: string)
    requires |chain| > 0
    requires SlotsNumbered(chain[|chain| - 1])
    ensures var (b', v) := DeclareVariable(chain[|chain| - 1], name);
            var chain' := chain[..|chain| - 1] + [b'];
            LookupVariable(chain', name) == Some(VarLocation(|chain| - 1, v.index)) &&
            SlotsNumbered(b')
  {
    var (b', v) := DeclareVariable(chain[|chain| - 1], name);
    var chain' := chain[..|chain| - 1] + [b'];
    assert chain'[|chain'| - 1] == b';
    assert b'.vars[|b'.vars| - 1] == v;
  }

  // ---------------------------------------------------------------------
  // List and expression constructors

  /** TSDef_Construct{Variable,FunctionCall,Exp}List: the parser builds lists
      right to left, each call putting one item at the front. */
  function ConstructList<T>(item: T, remaining: Option<seq<T>>): (l: seq<T>)
    ensures |l| == 1 + (if remaining.Some? then |remaining.value| else 0)
    ensures l[0] == item && (remaining.Some? ==> l[1..] == remaining.value)
  {
    if remaining.Some? then [item] + remaining.value else [item]
  }

  /** TSDef_ConstructPrimaryExp: a new chain is one node with type DELAYED
      and no flags; otherwise the node goes in front. */
  function ConstructPrimaryExp(op: PrimaryOp, value: ExpValue, remaining: Option<PrimaryExp>): (e: PrimaryExp)
    ensures |e.nodes| > 0 && e.nodes[0] == PrimaryNode(op, value)
    ensures remaining.None? ==> e == PrimaryExp([PrimaryNode(op, value)], Delayed, false)
    ensures remaining.Some? ==> e.nodes[1..] == remaining.value.nodes &&
                                e.effectiveType == remaining.value.effectiveType &&
                                e.negate == remaining.value.negate
  {
    match remaining
    case None => PrimaryExp([PrimaryNode(op, value)], Delayed, false)
    case Some(r) => r.(nodes := [PrimaryNode(op, value)] + r.nodes)
  }

  /** TSDef_ConstructComparisonExp: the node's type starts DELAYED. */
  function ConstructComparisonExp(op: ComparisonOp, left: PrimaryExp, right: Option<PrimaryExp>,
                                  remaining: Option<seq<ComparisonNode>>): (nodes: seq<ComparisonNode>)
    ensures |nodes| > 0 && nodes[0] == ComparisonNode(op, Delayed, left, right)
    ensures remaining.Some? ==> nodes[1..] == remaining.value
    ensures remaining.None? ==> |nodes| == 1
  {
    ConstructList(ComparisonNode(op, Delayed, left, right), remaining)
  }

  /** TSDef_ConstructLogicalExp. When the existing chain starts with a bare
      VALUE node, that node is reused: its operand moves to the right-hand
      side and the new operand and operator take the left. */
  function ConstructLogicalExp(op: LogicalOp, left: Option<Exp>, leftNot: bool,
                               right: Option<Exp>, rightNot: bool,
                               remaining: Option<seq<LogicalNode>>): (nodes: seq<LogicalNode>)
    requires remaining.Some? ==> |remaining.value| > 0
    ensures remaining.None? ==> nodes == [LogicalNode(op, left, leftNot, right, rightNot)]
    ensures remaining.Some? && remaining.value[0].op == LValue ==>
              var head := remaining.value[0];
              nodes == [LogicalNode(op, left, leftNot, head.left, head.leftNot)] + remaining.value[1..]
    ensures remaining.Some? && remaining.value[0].op != LValue ==>
              nodes == [LogicalNode(op, left, leftNot, right, rightNot)] + remaining.value
  {
    match remaining
    case None => [LogicalNode(op, left, leftNot, right, rightNot)]
    case Some(r) =>
      if r[0].op == LValue then
        [LogicalNode(op, left, leftNot, r[0].left, r[0].leftNot)] + r[1..]
      else
        [LogicalNode(op, left, leftNot, right, rightNot)] + r
  }

  /** The shape the grammar gives a logical chain: one bare VALUE node, or
      nodes that all carry `and` or `or`. */
  predicate LogicalShaped(nodes: seq<LogicalNode>)
  {
    (|nodes| == 1 && nodes[0].op == LValue) ||
    (|nodes| > 0 && forall k :: 0 <= k < |nodes| ==> nodes[k].op != LValue)
  }

  /** The operands of `x0 op0 x1 op1 ... xn` in source order, each with its
      NOT flag: every node's left operand, then the last node's right one
      unless that node is a bare VALUE. */
  function LogicalOperands(nodes: seq<LogicalNode>): seq<(Option<Exp>, bool)>
    decreases |nodes|
  {
    if |nodes| == 0 then []
    else if |nodes| == 1 then
      [(nodes[0].left, nodes[0].leftNot)] +
      (if nodes[0].op == LValue then [] else [(nodes[0].right, nodes[0].rightNot)])
    else [(nodes[0].left, nodes[0].leftNot)] + LogicalOperands(nodes[1..])
  }

  /** The operators of the chain in source order; VALUE is none. */
  function LogicalOperators(nodes: seq<LogicalNode>): seq<LogicalOp>
    decreases |nodes|
  {
    if |nodes| == 0 then []
    else (if nodes[0].op == LValue then [] else [nodes[0].op]) + LogicalOperators(nodes[1..])
  }

  /** A shaped chain has one operand more than it has operators. */
  lemma {:induction false} LogicalShapedCounts(nodes: seq<LogicalNode>)
    requires LogicalShaped(nodes)
    ensures |LogicalOperands(nodes)| == |LogicalOperators(nodes)| + 1
    decreases |nodes|
  {
    if |nodes| > 1 {
      assert LogicalShaped(nodes[1..]) by {
        forall k | 0 <= k < |nodes[1..]| ensures nodes[1..][k].op != LValue {
          assert nodes[1..][k] == nodes[k + 1];
        }
      }
      LogicalShapedCounts(nodes[1..]);
    }
  }

  /** The grammar rule `x op rest` read back: the new chain is `x`, then
      `op`, then the operands and operators of `rest` in order (for a
      chain that is one bare VALUE, its operand becomes the right one), or
      `x op y` when there is no rest; it has the grammar's shape again. */
  lemma {:induction false} ConstructLogicalExpReadsInOrder(op: LogicalOp, left: Option<Exp>, leftNot: bool,
                                                          right: Option<Exp>, rightNot: bool,
                                                          remaining: Option<seq<LogicalNode>>)
    requires remaining.Some? ==> op != LValue && LogicalShaped(remaining.value)
    ensures var nodes := ConstructLogicalExp(op, left, leftNot, right, rightNot, remaining);
            LogicalShaped(nodes) &&
            LogicalOperands(nodes) ==
              [(left, leftNot)] +
              (if remaining.Some? then LogicalOperands(remaining.value)
               else if op == LValue then [] else [(right, rightNot)]) &&
            LogicalOperators(nodes) ==
              (if op == LValue then [] else [op]) +
              (if remaining.Some? then LogicalOperators(remaining.value) else []) &&
            |LogicalOperands(nodes)| == |LogicalOperators(nodes)| + 1
  {
    var nodes := ConstructLogicalExp(op, left, leftNot, right, rightNot, remaining);
    if remaining.Some? {
      var r := remaining.value;
      if r[0].op == LValue {
        assert nodes == [LogicalNode(op, left, leftNot, r[0].left, r[0].leftNot)];
      } else {
        assert nodes[1..] == r;
        assert LogicalShaped(nodes) by {
          forall k | 0 <= k < |nodes| ensures nodes[k].op != LValue {
            if k > 0 { assert nodes[k] == r[k - 1]; }
          }
        }
      }
    }
    LogicalShapedCounts(nodes);
  }

  /** TSDef_ExpPrimitiveType: comparisons and logical expressions are bool; a
      primary expression has the type the resolver gave it. */
  function ExpPrimitiveType(e: Exp): (t: PrimType)
    ensures !e.Primary? ==> t == Bool
    ensures e.Primary? ==> t == e.p.effectiveType
  {
    match e
    case Primary(p) => p.effectiveType
    case Comparison(_) => Bool
    case Logical(_) => Bool
  }

  /** The type of a resolved call's result, DELAYED while unresolved. */
  function CallPrimitiveType(c: FunctionCall): (t: PrimType)
    ensures c.target.None? ==> t == Delayed
    ensures c.target.Some? && c.target.value.FFITarget? ==> t != Delayed
  {
    match c.target
    case None => Delayed
    case Some(UnitTarget(_, _, out)) => if out.Some? then out.value else Void
    case Some(FFITarget(_, _, out)) => DefFFI.TranslateFFIType(out)
  }

  /** TSDef_ExpValuePrimitiveType: the static type of one operand. */
  function ExpValuePrimitiveType(v: ExpValue): (t: PrimType)
    ensures v.BoolConst? ==> t == Bool
    ensures v.IntConst? ==> t == Int
    ensures v.RealConst? ==> t == Real
    ensures v.StrConst? ==> t == Str
    ensures v.VarValue? ==> (t == Delayed <==> v.v.binding.None? || v.v.binding.value.ty == Delayed)
  {
    match v
    case BoolConst(_) => Bool
    case IntConst(_) => Int
    case RealConst(_) => Real
    case StrConst(_) => Str
    case CallValue(c) => CallPrimitiveType(c)
    case VarValue(r) => if r.binding.None? then Delayed else r.binding.value.ty
    case SubExp(e) => ExpPrimitiveType(e)
  }

  // ---------------------------------------------------------------------
  // Units

  /** TSDef_InitializeUnit. */
  function InitializeUnit(name: string): (u: Unit)
    ensures u.name == name && u.unitId == 0 && u.input.None? && u.output.None?
    ensures u.global.depth == 0 && |u.global.vars| == 0 && |u.global.stmts| == 0
    ensures |u.actions| == 0
  {
    Unit(name, 0, None, None, InitializeBlock(None), [])
  }

  /** TSDef_AddAction: the action goes at the head of the unit's list (so
      action_count grows by one) with an empty block one level below the
      global block. */
  function AddAction(u: Unit, triggers: seq<FunctionCall>, location: nat): (u': Unit)
    ensures |u'.actions| == |u.actions| + 1 && u'.actions[1..] == u.actions
    ensures u'.actions[0].triggers == triggers && u'.actions[0].location == location
    ensures u'.actions[0].body.depth == u.global.depth + 1
    ensures |u'.actions[0].body.vars| == 0 && |u'.actions[0].body.stmts| == 0
    ensures u'.global == u.global && u'.name == u.name
  {
    u.(actions := [Action(triggers, location, InitializeBlock(Some(u.global.depth)))] + u.actions)
  }
}
