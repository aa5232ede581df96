/** Name and type resolution (ts/api/tsdef/source/resolve.c): binds every
    variable reference and call of a unit, fixes the type of every
    expression, declares variables on first assignment, and reports what it
    cannot resolve.

    The C resolver walks the tree with a cursor and edits it in place; here
    each step takes the tree it decides and returns it annotated, together
    with the resolver state and the scope chain (outermost block first, the
    current block last). What a call's name refers to comes from `lookup`,
    which stands for the module's tables, the embedder's lookup callback
    and the typing of a template instance. */
module Resolve {
  import opened Wrappers
  import opened DefTypes
  import opened DefFFI
  import opened DefError
  import opened Def
  import opened Arguments
  import Text

  /** ABORT_RESOLVE -1, ABORT_STATEMENT 0, CONTINUE_RESOLVE 1. */
  datatype Decision = AbortResolve | AbortStatement | ContinueResolve

  datatype Severity = SeverityWarning | SeverityError

  /** ACTIONABLE_FUNCTION (an action trigger) or INVOCABLE_FUNCTION (a call
      in a statement or expression). */
  datatype CallUse = Actionable | Invocable

  /** struct resolve_state without its cursor. `stackFlags` is whatever the
      uninitialised `flags` of HandleError holds. */
  datatype ResolveState = ResolveState(
    unitName: string,
    location: nat,
    errorList: Option<DefErrorList>,
    errorCount: nat,
    warningCount: nat,
    stackFlags: bv32)

  /** One report made while typing a template instance. */
  datatype Report = Report(error: DefErrorKind, severity: Severity, info: Option<ErrorInfo>, location: nat)

  /** What a call's name and argument types lead to:
      a typed unit; a template unit, with the outcome of cloning it and
      typing the clone's inputs and output (the reports made, where the
      location is left, and the two results); a plugin function, with the
      argument it cannot convert if any; a wrong argument count; nothing;
      or an internal failure. */
  datatype CallLookup =
    | TypedUnitFound(unitName: string, inputTypes: seq<PrimType>, outputType: Option<PrimType>)
    | TemplateInstance(instanceName: string, instanceInputs: seq<PrimType>, instanceOutput: Option<PrimType>,
                       reports: seq<Report>, leftAt: Option<nat>,
                       inputDecision: Decision, outputDecision: Decision)
    | FFIFound(def: FFIFunction, mismatch: Option<MismatchInfo>)
    | ArgumentCountWrong(requiredCount: nat)
    | NoSuchFunction
    | LookupFailed

  type Lookup = (string, seq<PrimType>) -> CallLookup

  datatype Decided<T> = Decided(st: ResolveState, item: T, decision: Decision)

  datatype Processed<T> = Processed(st: ResolveState, chain: seq<Block>, item: T, decision: Decision)

  // ---------------------------------------------------------------------
  // Error handling

  /** The state only gained reports: the counters never go down and the
      list, when there is one, keeps its reports and counts the new ones
      exactly as the counters do. */
  predicate Grew(st: ResolveState, st': ResolveState)
  {
    st'.unitName == st.unitName && st'.stackFlags == st.stackFlags &&
    st.errorCount <= st'.errorCount && st.warningCount <= st'.warningCount &&
    st'.errorList.Some? == st.errorList.Some? &&
    (st.errorList.Some? ==>
       var l, l' := st.errorList.value, st'.errorList.value;
       |l.reports| <= |l'.reports| &&
       (forall i :: 0 <= i < |l.reports| ==> l'.reports[i] == l.reports[i]) &&
       l'.errorCount - l.errorCount == st'.errorCount - st.errorCount &&
       l'.warningCount - l.warningCount == st'.warningCount - st.warningCount)
  }

  /** Grew does not look at the location. */
  lemma GrewAt(st: ResolveState, st': ResolveState, loc: nat)
    requires Grew(st.(location := loc), st')
    ensures Grew(st, st') && Grew(st.(location := st'.location), st')
  {
  }

  /** Growing twice is growing. */
  lemma GrewThen(st: ResolveState, st1: ResolveState, st2: ResolveState)
    requires Grew(st, st1) && Grew(st1.(location := st2.location), st2)
    ensures Grew(st.(location := st2.location), st2)
  {
  }

  /** HandleError: a warning bumps the warning count and is flagged
      WARNING (on top of whatever `flags` held); an error bumps the error
      count with flags 0. The report goes to the list when there is one. */
  function HandleError(st: ResolveState, error: DefErrorKind, severity: Severity, info: Option<ErrorInfo>): (st': ResolveState)
    ensures Grew(st, st') && st'.location == st.location
    ensures severity == SeverityWarning ==> st'.warningCount == st.warningCount + 1 && st'.errorCount == st.errorCount
    ensures severity == SeverityError ==> st'.errorCount == st.errorCount + 1 && st'.warningCount == st.warningCount
    ensures st.errorList.Some? ==>
              var l, l' := st.errorList.value, st'.errorList.value;
              |l'.reports| == |l.reports| + 1 &&
              var r := l'.reports[|l.reports|];
              r.error == error && r.unitName == st.unitName && r.location == st.location && r.info == info &&
              (IsWarning(r) <==> severity == SeverityWarning)
  {
    var flags := if severity == SeverityWarning then st.stackFlags | FlagWarning else 0;
    assert severity == SeverityWarning ==> flags & FlagWarning != 0;
    var list := if st.errorList.Some? then
                  Some(AppendDefErrorList(st.errorList.value, error, st.unitName, st.location, flags, info))
                else None;
    LastReportFlags(st.errorList, error, st.unitName, st.location, flags, info);
    if severity == SeverityWarning then
      st.(errorList := list, warningCount := st.warningCount + 1)
    else
      st.(errorList := list, errorCount := st.errorCount + 1)
  }

  /** The appended report is a warning exactly when the flags passed say so. */
  lemma LastReportFlags(l: Option<DefErrorList>, error: DefErrorKind, unitName: string, location: nat, flags: bv32, info: Option<ErrorInfo>)
    ensures l.Some? ==>
              var l' := AppendDefErrorList(l.value, error, unitName, location, flags, info);
              IsWarning(l'.reports[|l.value.reports|]) <==> flags & FlagWarning != 0
  {
    InfoFlagKeepsWarning(flags);
  }

  /** Replays the reports a template instance made, each at its own
      location, and leaves the location where the instance left it. */
  function EmitReports(st: ResolveState, reports: seq<Report>, leftAt: Option<nat>): (st': ResolveState)
    ensures Grew(st, st')
    ensures st'.errorCount + st'.warningCount == st.errorCount + st.warningCount + |reports|
    decreases |reports|
  {
    if |reports| == 0 then
      if leftAt.Some? then st.(location := leftAt.value) else st
    else
      var r := reports[0];
      EmitReports(HandleError(st.(location := r.location), r.error, r.severity, r.info), reports[1..], leftAt)
  }

  // ---------------------------------------------------------------------
  // Shapes: what the parser builds, and what resolution leaves behind

  /** Every chain the parser builds has at least one node, and the last
      comparison node holds the right operand. */
  predicate ShapedExp(e: Exp)
    decreases e, 1
  {
    match e
    case Primary(p) => ShapedPrimary(p)
    case Comparison(cn) =>
      |cn| > 0 && cn[|cn| - 1].right.Some? &&
      (forall i :: 0 <= i < |cn| ==> ShapedPrimary(cn[i].left)) &&
      ShapedPrimary(cn[|cn| - 1].right.value)
    case Logical(ln) =>
      forall i :: 0 <= i < |ln| ==>
        (ln[i].left.Some? ==> ShapedExp(ln[i].left.value)) &&
        (ln[i].right.Some? ==> ShapedExp(ln[i].right.value))
  }

  predicate ShapedPrimary(p: PrimaryExp)
    decreases p
  {
    |p.nodes| > 0 && forall i :: 0 <= i < |p.nodes| ==> ShapedValue(p.nodes[i].value)
  }

  predicate ShapedValue(v: ExpValue)
    decreases v
  {
    match v
    case SubExp(e) => ShapedExp(e)
    case CallValue(c) => ShapedCall(c)
    case _ => true
  }

  predicate ShapedCall(c: FunctionCall)
    decreases c
  {
    forall i :: 0 <= i < |c.arguments| ==> ShapedExp(c.arguments[i])
  }

  predicate ShapedOptExp(o: Option<Exp>)
  {
    o.Some? ==> ShapedExp(o.value)
  }

  /** A fully resolved expression: every variable reference bound, every
      call bound to its target, every operand and every expression of a
      known, usable type. This is what the interpreter relies on. */
  predicate ExpBound(e: Exp)
    decreases e, 1
  {
    match e
    case Primary(p) => PrimaryBound(p)
    case Comparison(cn) =>
      |cn| > 0 && cn[|cn| - 1].right.Some? && PrimaryBound(cn[|cn| - 1].right.value) &&
      forall i :: 0 <= i < |cn| ==> Concrete(cn[i].ty) && PrimaryBound(cn[i].left)
    case Logical(ln) =>
      forall i :: 0 <= i < |ln| ==>
        (ln[i].left.Some? ==> ExpBound(ln[i].left.value)) &&
        (ln[i].right.Some? ==> ExpBound(ln[i].right.value))
  }

  predicate PrimaryBound(p: PrimaryExp)
    decreases p
  {
    Concrete(p.effectiveType) &&
    forall i :: 0 <= i < |p.nodes| ==>
      ValueBound(p.nodes[i].value) && Concrete(ExpValuePrimitiveType(p.nodes[i].value))
  }

  predicate ValueBound(v: ExpValue)
    decreases v
  {
    match v
    case SubExp(e) => ExpBound(e)
    case CallValue(c) => CallBound(c)
    case VarValue(r) => r.binding.Some?
    case _ => true
  }

  predicate CallBound(c: FunctionCall)
    decreases c
  {
    c.target.Some? && forall i :: 0 <= i < |c.arguments| ==> ExpBound(c.arguments[i])
  }

  predicate OptExpBound(o: Option<Exp>)
  {
    o.Some? ==> ExpBound(o.value)
  }

  // ---------------------------------------------------------------------
  // Typing a primary chain

  /** The operand types of a chain, in order. */
  function OperandTypes(nodes: seq<PrimaryNode>): (ts: seq<PrimType>)
    ensures |ts| == |nodes|
    ensures forall i :: 0 <= i < |nodes| ==> ts[i] == ExpValuePrimitiveType(nodes[i].value)
  {
    seq(|nodes|, i requires 0 <= i < |nodes| => ExpValuePrimitiveType(nodes[i].value))
  }

  /** The promotion of all the types, folded from the left. */
  function PromoteAll(ts: seq<PrimType>): PrimType
    requires |ts| > 0
  {
    if |ts| == 1 then ts[0]
    else SelectPrimitivePromotion(PromoteAll(ts[..|ts| - 1]), ts[|ts| - 1])
  }

  /** Promoting one more operand folds its type into the promotion. */
  lemma PromoteAppend(done: seq<PrimaryNode>, node: PrimaryNode)
    requires |done| > 0
    ensures PromoteAll(OperandTypes(done + [node])) ==
            SelectPrimitivePromotion(PromoteAll(OperandTypes(done)), ExpValuePrimitiveType(node.value))
  {
    var ts := OperandTypes(done + [node]);
    assert ts[..|ts| - 1] == OperandTypes(done);
  }

  /** One more decided operand keeps the operand loop's invariant. */
  lemma PrimaryStep(p: PrimaryExp, done: seq<PrimaryNode>, node: PrimaryNode)
    requires 1 <= |done| < |p.nodes| && node.op == p.nodes[|done|].op
    requires forall k :: 0 <= k < |done| ==> done[k].op == p.nodes[k].op
    requires forall k :: 0 <= k < |done| ==> ValueBound(done[k].value) && Concrete(ExpValuePrimitiveType(done[k].value))
    requires ValueBound(node.value) && Concrete(ExpValuePrimitiveType(node.value))
    ensures forall k :: 0 <= k < |done| + 1 ==> (done + [node])[k].op == p.nodes[k].op
    ensures forall k :: 0 <= k < |done| + 1 ==>
              ValueBound((done + [node])[k].value) && Concrete(ExpValuePrimitiveType((done + [node])[k].value))
    ensures PromoteAll(OperandTypes(done + [node])) ==
            SelectPrimitivePromotion(PromoteAll(OperandTypes(done)), ExpValuePrimitiveType(node.value))
  {
    PromoteAppend(done, node);
  }

  /** The folded promotion is the operand type of highest rank. */
  lemma {:induction false} PromoteAllIsMax(ts: seq<PrimType>)
    requires |ts| > 0
    ensures PromoteAll(ts) in ts
    ensures forall i :: 0 <= i < |ts| ==> Rank(ts[i]) <= Rank(PromoteAll(ts))
  {
    if |ts| > 1 {
      var init := ts[..|ts| - 1];
      PromoteAllIsMax(init);
      assert forall i :: 0 <= i < |ts| - 1 ==> ts[i] == init[i];
    }
  }

  /** The operators a chain applies: every node's but the last one's. */
  function UsedOps(nodes: seq<PrimaryNode>): set<PrimaryOp>
  {
    set k | 0 <= k < |nodes| - 1 :: nodes[k].op
  }

  /** TSDEF_PRIMARY_EXP_OP_VALUE 0 through POW 6. */
  const OpsInCodeOrder: seq<PrimaryOp> := [OpValue, Add, Sub, Mul, Div, Mod, Pow]

  /** The check loop of DecidePrimaryExpPrimitive: the used operator of
      lowest code that the promoted type does not admit. */
  function FirstDisallowedOp(used: set<PrimaryOp>, t: PrimType, k: nat): (r: Option<PrimaryOp>)
    requires k <= |OpsInCodeOrder|
    ensures r.None? ==> forall j :: k <= j < |OpsInCodeOrder| && OpsInCodeOrder[j] in used ==>
                          OpAllowed(t, OpsInCodeOrder[j], t)
    ensures r.Some? ==> r.value in used && !OpAllowed(t, r.value, t)
    decreases |OpsInCodeOrder| - k
  {
    if k == |OpsInCodeOrder| then None
    else
      var op := OpsInCodeOrder[k];
      if op in used && !OpAllowed(t, op, t) then Some(op)
      else FirstDisallowedOp(used, t, k + 1)
  }

  lemma EveryOpHasACode(op: PrimaryOp)
    ensures exists j :: 0 <= j < |OpsInCodeOrder| && OpsInCodeOrder[j] == op
  {
    match op
    case OpValue => assert OpsInCodeOrder[0] == op;
    case Add => assert OpsInCodeOrder[1] == op;
    case Sub => assert OpsInCodeOrder[2] == op;
    case Mul => assert OpsInCodeOrder[3] == op;
    case Div => assert OpsInCodeOrder[4] == op;
    case Mod => assert OpsInCodeOrder[5] == op;
    case Pow => assert OpsInCodeOrder[6] == op;
  }

  /** No operator is rejected exactly when the type admits all of them. */
  lemma NoDisallowedOp(used: set<PrimaryOp>, t: PrimType)
    requires FirstDisallowedOp(used, t, 0).None?
    ensures forall op :: op in used ==> OpAllowed(t, op, t)
  {
    forall op | op in used
      ensures OpAllowed(t, op, t)
    {
      EveryOpHasACode(op);
    }
  }

  // ---------------------------------------------------------------------
  // Deciding expressions

  /** DecideExpPrimitive. */
  function DecideExp(st: ResolveState, chain: seq<Block>, lookup: Lookup, e: Exp): (r: Decided<Exp>)
    requires ShapedExp(e)
    ensures Grew(st, r.st)
    ensures r.decision == ContinueResolve ==> ExpBound(r.item)
    ensures r.item.Primary? <==> e.Primary?
    decreases e, 2, 0
  {
    match e
    case Primary(p) =>
      var q := DecidePrimary(st, chain, lookup, p);
      Decided(q.st, Primary(q.item), q.decision)
    case Comparison(cn) =>
      var q := DecideComparison(st, chain, lookup, e);
      Decided(q.st, Comparison(q.item), q.decision)
    case Logical(ln) =>
      var q := DecideLogicalFrom(st, chain, lookup, e, 0, []);
      Decided(q.st, Logical(q.item), q.decision)
  }

  /** An optional expression, as an if statement's condition. */
  function DecideOptExp(st: ResolveState, chain: seq<Block>, lookup: Lookup, o: Option<Exp>): (r: Decided<Option<Exp>>)
    requires ShapedOptExp(o)
    ensures Grew(st, r.st)
    ensures r.item.Some? == o.Some?
    ensures r.decision == ContinueResolve ==> OptExpBound(r.item)
  {
    if o.None? then Decided(st, None, ContinueResolve)
    else
      var q := DecideExp(st, chain, lookup, o.value);
      Decided(q.st, Some(q.item), q.decision)
  }

  /** DecideExpValueTypePrimitive: a variable is looked up from the current
      block outwards, and an unknown name is the error UNDEFINED_VARIABLE. */
  function DecideValue(st: ResolveState, chain: seq<Block>, lookup: Lookup, v: ExpValue): (r: Decided<ExpValue>)
    requires ShapedValue(v)
    ensures Grew(st, r.st)
    ensures r.decision == ContinueResolve ==> ValueBound(r.item)
    ensures v.VarValue? ==>
              var found := LookupVariable(chain, v.v.name);
              (found.None? <==> r.decision == AbortStatement) &&
              (found.None? ==> r.st == HandleError(st, UndefinedVariable, SeverityError, Some(NameInfo(v.v.name)))) &&
              (found.Some? ==> r.st == st && r.decision == ContinueResolve &&
                               r.item == VarValue(v.v.(binding := Some(BindingAt(chain, found.value)))))
    ensures v.BoolConst? || v.IntConst? || v.RealConst? || v.StrConst? ==> r == Decided(st, v, ContinueResolve)
    decreases v, 2, 0
  {
    match v
    case SubExp(e) =>
      var q := DecideExp(st, chain, lookup, e);
      Decided(q.st, SubExp(q.item), q.decision)
    case VarValue(ref) =>
      (match LookupVariable(chain, ref.name)
       case None =>
         Decided(HandleError(st, UndefinedVariable, SeverityError, Some(NameInfo(ref.name))), v, AbortStatement)
       case Some(loc) =>
         Decided(st, VarValue(ref.(binding := Some(BindingAt(chain, loc)))), ContinueResolve))
    case CallValue(c) =>
      var q := DecideCall(st, chain, lookup, c, Invocable);
      Decided(q.st, CallValue(q.item), q.decision)
    case _ => Decided(st, v, ContinueResolve)
  }

  /** DecidePrimaryExpPrimitive: every operand is decided in turn and must
      have a value (not DELAYED, not VOID); the chain's type is the
      promotion of its operand types; every operator used must be legal on
      that type, and a negated chain must be numeric. */
  function DecidePrimary(st: ResolveState, chain: seq<Block>, lookup: Lookup, p: PrimaryExp): (r: Decided<PrimaryExp>)
    requires ShapedPrimary(p)
    ensures Grew(st, r.st)
    ensures |r.item.nodes| == |p.nodes| && r.item.negate == p.negate
    ensures r.decision == ContinueResolve ==>
              PrimaryBound(r.item) &&
              r.item.effectiveType == PromoteAll(OperandTypes(r.item.nodes)) &&
              (forall op :: op in UsedOps(r.item.nodes) ==> OpAllowed(r.item.effectiveType, op, r.item.effectiveType)) &&
              (p.negate ==> r.item.effectiveType == Int || r.item.effectiveType == Real)
    decreases p, 1, |p.nodes| + 1
  {
    var q := DecideValue(st, chain, lookup, p.nodes[0].value);
    var first := p.nodes[0].(value := q.item);
    var partial := p.(nodes := [first] + p.nodes[1..]);
    if q.decision != ContinueResolve then Decided(q.st, partial, q.decision)
    else
      var t := ExpValuePrimitiveType(q.item);
      if t == Delayed then Decided(HandleError(q.st, UsingDelayedType, SeverityError, None), partial, AbortStatement)
      else if t == Void then Decided(HandleError(q.st, UsingVoidType, SeverityError, None), partial, AbortStatement)
      else
        assert OperandTypes([first]) == [t];
        DecidePrimaryFrom(q.st, chain, lookup, p, 1, [first], t)
  }

  /** The checks after the operand loop: every used operator must be
      allowed on the promoted type, and so must a leading minus sign. */
  function FinishPrimary(st: ResolveState, p: PrimaryExp, done: seq<PrimaryNode>, promoted: PrimType): (r: Decided<PrimaryExp>)
    requires |done| == |p.nodes| > 0
    requires forall k :: 0 <= k < |done| ==> ValueBound(done[k].value) && Concrete(ExpValuePrimitiveType(done[k].value))
    requires promoted == PromoteAll(OperandTypes(done))
    ensures Grew(st, r.st)
    ensures r.item.nodes == done && r.item.negate == p.negate
    ensures r.decision == ContinueResolve ==>
              PrimaryBound(r.item) &&
              r.item.effectiveType == PromoteAll(OperandTypes(r.item.nodes)) &&
              (forall op :: op in UsedOps(r.item.nodes) ==> OpAllowed(r.item.effectiveType, op, r.item.effectiveType)) &&
              (p.negate ==> r.item.effectiveType == Int || r.item.effectiveType == Real)
  {
    PromoteAllIsMax(OperandTypes(done));
    var e := p.(nodes := done);
    match FirstDisallowedOp(UsedOps(done), promoted, 0)
    case Some(op) =>
      Decided(HandleError(st, InvalidUseOfOperator, SeverityError, Some(OperatorInfo(op, promoted))), e, AbortStatement)
    case None =>
      NoDisallowedOp(UsedOps(done), promoted);
      // The VALUE check that follows the loop admits every type, since
      // OpAllowed accepts VALUE after a VOID left side.
      if p.negate && !OpAllowed(Void, Sub, promoted) then
        Decided(HandleError(st, InvalidUseOfOperator, SeverityError, Some(OperatorInfo(Sub, promoted))), e, AbortStatement)
      else
        Decided(st, e.(effectiveType := promoted), ContinueResolve)
  }

  /** The loop over the remaining operands; `done` holds the operands
      decided so far and `promoted` their promotion. */
  function DecidePrimaryFrom(st: ResolveState, chain: seq<Block>, lookup: Lookup, p: PrimaryExp,
                             i: nat, done: seq<PrimaryNode>, promoted: PrimType): (r: Decided<PrimaryExp>)
    requires ShapedPrimary(p) && 1 <= i <= |p.nodes| && |done| == i
    requires forall k :: 0 <= k < i ==> done[k].op == p.nodes[k].op
    requires forall k :: 0 <= k < i ==> ValueBound(done[k].value) && Concrete(ExpValuePrimitiveType(done[k].value))
    requires promoted == PromoteAll(OperandTypes(done))
    ensures Grew(st, r.st)
    ensures |r.item.nodes| == |p.nodes| && r.item.negate == p.negate
    ensures r.decision == ContinueResolve ==>
              PrimaryBound(r.item) &&
              r.item.effectiveType == PromoteAll(OperandTypes(r.item.nodes)) &&
              (forall op :: op in UsedOps(r.item.nodes) ==> OpAllowed(r.item.effectiveType, op, r.item.effectiveType)) &&
              (p.negate ==> r.item.effectiveType == Int || r.item.effectiveType == Real)
    decreases p, 1, |p.nodes| - i
  {
    if i == |p.nodes| then FinishPrimary(st, p, done, promoted)
    else
      var q := DecideValue(st, chain, lookup, p.nodes[i].value);
      var node := p.nodes[i].(value := q.item);
      var partial := p.(nodes := done + [node] + p.nodes[i + 1..]);
      if q.decision != ContinueResolve then Decided(q.st, partial, q.decision)
      else
        var t := ExpValuePrimitiveType(q.item);
        if t == Delayed then Decided(HandleError(q.st, UsingDelayedType, SeverityError, None), partial, AbortStatement)
        else if t == Void then Decided(HandleError(q.st, UsingVoidType, SeverityError, None), partial, AbortStatement)
        else
          PrimaryStep(p, done, node);
          DecidePrimaryFrom(q.st, chain, lookup, p, i + 1, done + [node], SelectPrimitivePromotion(promoted, t))
  }

  /** The types DecideComparisonExpPrimitive fixes: each node's type is the
      promotion of its left operand's type and the type of the operand
      after it (the next node's left operand, or the last node's right
      operand). */
  predicate ComparisonTyped(cn: seq<ComparisonNode>)
  {
    |cn| > 0 && cn[|cn| - 1].right.Some? &&
    (forall i :: 0 <= i < |cn| - 1 ==>
       cn[i].ty == SelectPrimitivePromotion(cn[i].left.effectiveType, cn[i + 1].left.effectiveType)) &&
    cn[|cn| - 1].ty == SelectPrimitivePromotion(cn[|cn| - 1].left.effectiveType, cn[|cn| - 1].right.value.effectiveType)
  }

  /** Typing the last decided node and appending the next one keeps the
      comparison loop's invariant. */
  lemma ComparisonStep(e: Exp, k: nat, done: seq<ComparisonNode>, node: ComparisonNode, done': seq<ComparisonNode>)
    requires e.Comparison? && 1 <= k < |e.cnodes| && |done| == k
    requires forall i :: 0 <= i < k ==> PrimaryBound(done[i].left) && done[i].right == e.cnodes[i].right
    requires forall i :: 0 <= i < k - 1 ==>
               Concrete(done[i].ty) &&
               done[i].ty == SelectPrimitivePromotion(done[i].left.effectiveType, done[i + 1].left.effectiveType)
    requires PrimaryBound(node.left) && node.right == e.cnodes[k].right
    requires done' == done[..k - 1] +
                      [done[k - 1].(ty := SelectPrimitivePromotion(done[k - 1].left.effectiveType, node.left.effectiveType))] +
                      [node]
    ensures |done'| == k + 1
    ensures forall i :: 0 <= i < k + 1 ==> PrimaryBound(done'[i].left) && done'[i].right == e.cnodes[i].right
    ensures forall i :: 0 <= i < k ==>
              Concrete(done'[i].ty) &&
              done'[i].ty == SelectPrimitivePromotion(done'[i].left.effectiveType, done'[i + 1].left.effectiveType)
  {
    assert forall i :: 0 <= i < k - 1 ==> done'[i] == done[i];
  }

  /** Deciding the right operand of the last node completes a typed,
      bound comparison. */
  lemma ComparisonLast(e: Exp, done: seq<ComparisonNode>, right: PrimaryExp, nodes: seq<ComparisonNode>)
    requires e.Comparison? && |done| == |e.cnodes| >= 1
    requires forall i :: 0 <= i < |done| ==> PrimaryBound(done[i].left) && done[i].right == e.cnodes[i].right
    requires forall i :: 0 <= i < |done| - 1 ==>
               Concrete(done[i].ty) &&
               done[i].ty == SelectPrimitivePromotion(done[i].left.effectiveType, done[i + 1].left.effectiveType)
    requires PrimaryBound(right)
    requires nodes == done[..|done| - 1] +
                      [done[|done| - 1].(right := Some(right)).(ty := SelectPrimitivePromotion(done[|done| - 1].left.effectiveType, right.effectiveType))]
    ensures ComparisonTyped(nodes) && ExpBound(Comparison(nodes))
  {
    assert forall i :: 0 <= i < |done| - 1 ==> nodes[i] == done[i];
  }

  /** DecideComparisonExpPrimitive. */
  function DecideComparison(st: ResolveState, chain: seq<Block>, lookup: Lookup, e: Exp): (r: Decided<seq<ComparisonNode>>)
    requires e.Comparison? && ShapedExp(e)
    ensures Grew(st, r.st)
    ensures r.decision == ContinueResolve ==> ComparisonTyped(r.item) && ExpBound(Comparison(r.item))
    decreases e, 1, |e.cnodes| + 1
  {
    var cn := e.cnodes;
    var q := DecidePrimary(st, chain, lookup, cn[0].left);
    var first := cn[0].(left := q.item);
    if q.decision != ContinueResolve then Decided(q.st, [first] + cn[1..], q.decision)
    else DecideComparisonFrom(q.st, chain, lookup, e, 1, [first], q.item.effectiveType)
  }

  /** Nodes before `k` are decided, all but the last typed; `leftType` is
      the type of the last decided node's left operand. */
  function DecideComparisonFrom(st: ResolveState, chain: seq<Block>, lookup: Lookup, e: Exp,
                                k: nat, done: seq<ComparisonNode>, leftType: PrimType): (r: Decided<seq<ComparisonNode>>)
    requires e.Comparison? && ShapedExp(e)
    requires 1 <= k <= |e.cnodes| && |done| == k
    requires forall i :: 0 <= i < k ==> PrimaryBound(done[i].left) && done[i].right == e.cnodes[i].right
    requires leftType == done[k - 1].left.effectiveType
    requires forall i :: 0 <= i < k - 1 ==>
               Concrete(done[i].ty) &&
               done[i].ty == SelectPrimitivePromotion(done[i].left.effectiveType, done[i + 1].left.effectiveType)
    ensures Grew(st, r.st)
    ensures r.decision == ContinueResolve ==> ComparisonTyped(r.item) && ExpBound(Comparison(r.item))
    decreases e, 1, |e.cnodes| - k
  {
    var cn := e.cnodes;
    if k == |cn| then
      var q := DecidePrimary(st, chain, lookup, cn[k - 1].right.value);
      var last := done[k - 1].(right := Some(q.item));
      if q.decision != ContinueResolve then Decided(q.st, done[..k - 1] + [last], q.decision)
      else
        var nodes := done[..k - 1] + [last.(ty := SelectPrimitivePromotion(leftType, q.item.effectiveType))];
        ComparisonLast(e, done, q.item, nodes);
        Decided(q.st, nodes, ContinueResolve)
    else
      var q := DecidePrimary(st, chain, lookup, cn[k].left);
      var node := cn[k].(left := q.item);
      if q.decision != ContinueResolve then Decided(q.st, done + [node] + cn[k + 1..], q.decision)
      else
        var prev := done[k - 1].(ty := SelectPrimitivePromotion(leftType, q.item.effectiveType));
        var done' := done[..k - 1] + [prev] + [node];
        ComparisonStep(e, k, done, node, done');
        DecideComparisonFrom(q.st, chain, lookup, e, k + 1, done', q.item.effectiveType)
  }

  /** DecideLogicalExpPrimitive: the present operands of every node, left
      before right, until one does not resolve. */
  function DecideLogicalFrom(st: ResolveState, chain: seq<Block>, lookup: Lookup, e: Exp,
                             k: nat, done: seq<LogicalNode>): (r: Decided<seq<LogicalNode>>)
    requires e.Logical? && ShapedExp(e)
    requires k <= |e.lnodes| && |done| == k
    requires forall i :: 0 <= i < k ==>
               (done[i].left.Some? ==> ExpBound(done[i].left.value)) &&
               (done[i].right.Some? ==> ExpBound(done[i].right.value))
    ensures Grew(st, r.st)
    ensures r.decision == ContinueResolve ==> ExpBound(Logical(r.item))
    decreases e, 1, |e.lnodes| - k
  {
    var ln := e.lnodes;
    if k == |ln| then Decided(st, done, ContinueResolve)
    else
      var n := ln[k];
      var l := if n.left.Some? then
                 var q := DecideExp(st, chain, lookup, n.left.value); Decided(q.st, Some(q.item), q.decision)
               else Decided(st, None, ContinueResolve);
      if l.decision != ContinueResolve then Decided(l.st, done + [n.(left := l.item)] + ln[k + 1..], l.decision)
      else
        var rt := if n.right.Some? then
                    var q := DecideExp(l.st, chain, lookup, n.right.value); Decided(q.st, Some(q.item), q.decision)
                  else Decided(l.st, None, ContinueResolve);
        var node := n.(left := l.item, right := rt.item);
        if rt.decision != ContinueResolve then Decided(rt.st, done + [node] + ln[k + 1..], rt.decision)
        else DecideLogicalFrom(rt.st, chain, lookup, e, k + 1, done + [node])
  }

  /** DecideExpListPrimitives over a call's arguments, in order, until one
      does not resolve. */
  function DecideArgumentsFrom(st: ResolveState, chain: seq<Block>, lookup: Lookup, c: FunctionCall,
                               k: nat, done: seq<Exp>): (r: Decided<seq<Exp>>)
    requires ShapedCall(c)
    requires k <= |c.arguments| && |done| == k
    requires forall i :: 0 <= i < k ==> ExpBound(done[i])
    ensures Grew(st, r.st)
    ensures |r.item| == |c.arguments|
    ensures r.decision == ContinueResolve ==> forall i :: 0 <= i < |r.item| ==> ExpBound(r.item[i])
    decreases c, 1, |c.arguments| - k
  {
    var args := c.arguments;
    if k == |args| then Decided(st, done, ContinueResolve)
    else
      var q := DecideExp(st, chain, lookup, args[k]);
      if q.decision != ContinueResolve then Decided(q.st, done + [q.item] + args[k + 1..], q.decision)
      else DecideArgumentsFrom(q.st, chain, lookup, c, k + 1, done + [q.item])
  }

  /** DecideFunctionCallPrimitive: the arguments first, then the lookup by
      name and argument types. */
  function DecideCall(st: ResolveState, chain: seq<Block>, lookup: Lookup, c: FunctionCall, use: CallUse): (r: Decided<FunctionCall>)
    requires ShapedCall(c)
    ensures Grew(st, r.st)
    ensures r.decision == ContinueResolve ==> CallBound(r.item)
    ensures r.item.name == c.name
    decreases c, 2, 0
  {
    var a := DecideArgumentsFrom(st, chain, lookup, c, 0, []);
    var c' := c.(arguments := a.item);
    if a.decision != ContinueResolve then Decided(a.st, c', a.decision)
    else
      var types := ArgumentTypesFromExpList(c'.arguments);
      BindCall(a.st, c', types, lookup(c.name, types), use)
  }

  /** The argument name DecideFunctionCallPrimitive reports for a plugin
      argument that does not convert: "name(...), argumentN". */
  function MismatchName(name: string, index: nat): string
  {
    name + "(...), argument" + Text.IntToDecimal(index)
  }

  /** What DecideFunctionCallPrimitive does with the lookup's answer.
      Unknown names and wrong counts abandon the statement; an internal
      failure abandons resolution. A unit cannot be a trigger; a plugin
      function must have the entry point its use needs. A plugin argument
      that does not convert is only a warning. */
  function BindCall(st: ResolveState, c: FunctionCall, types: seq<PrimType>, found: CallLookup, use: CallUse): (r: Decided<FunctionCall>)
    requires forall i :: 0 <= i < |c.arguments| ==> ExpBound(c.arguments[i])
    ensures Grew(st, r.st)
    ensures r.decision == ContinueResolve ==> CallBound(r.item)
    ensures r.item.name == c.name && r.item.arguments == c.arguments
    ensures found.NoSuchFunction? ==>
              r == Decided(HandleError(st, UndefinedFunction, SeverityError, Some(NameInfo(c.name))), c, AbortStatement)
    ensures found.ArgumentCountWrong? ==>
              r.decision == AbortStatement && r.st.errorCount == st.errorCount + 1 && r.st.warningCount == st.warningCount
    ensures found.LookupFailed? ==> r.decision == AbortResolve && r.st.errorCount == st.errorCount + 1
    ensures found.TypedUnitFound? ==>
              r.decision == ContinueResolve &&
              r.item.target == Some(UnitTarget(found.unitName, found.inputTypes, found.outputType)) &&
              (r.st.errorCount == st.errorCount + 1 <==> use == Actionable) &&
              r.st.warningCount == st.warningCount
    ensures found.FFIFound? ==>
              r.decision == ContinueResolve &&
              r.item.target == Some(FFITarget(found.def.name, found.def.argTypes, found.def.outputType)) &&
              r.st.warningCount == st.warningCount + (if found.mismatch.Some? then 1 else 0) &&
              (r.st.errorCount == st.errorCount + 1 <==>
                 (use == Invocable && !found.def.invocable) || (use == Actionable && !found.def.actionable)) &&
              r.st.errorCount <= st.errorCount + 1
  {
    match found
    case NoSuchFunction =>
      Decided(HandleError(st, UndefinedFunction, SeverityError, Some(NameInfo(c.name))), c, AbortStatement)
    case ArgumentCountWrong(required) =>
      Decided(HandleError(st, WrongArgumentCount, SeverityError, Some(CountInfo(c.name, |types|, required))), c, AbortStatement)
    case LookupFailed =>
      Decided(HandleError(st, Internal, SeverityError, None), c, AbortResolve)
    case TypedUnitFound(name, ins, out) =>
      Decided(UnitUseChecked(st, name, use), c.(target := Some(UnitTarget(name, ins, out))), ContinueResolve)
    case TemplateInstance(name, ins, out, reports, leftAt, inputDecision, outputDecision) =>
      var st1 := EmitReports(st, reports, leftAt);
      if inputDecision != ContinueResolve then Decided(st1, c, inputDecision)
      else Decided(UnitUseChecked(st1, name, use), c.(target := Some(UnitTarget(name, ins, out))), outputDecision)
    case FFIFound(def, mismatch) => BindFFI(st, c, def, mismatch, use)
  }

  /** The FFIFound case of BindCall: the conversion warning, then the
      entry-point check for the use. */
  function BindFFI(st: ResolveState, c: FunctionCall, def: FFIFunction, mismatch: Option<MismatchInfo>, use: CallUse): (r: Decided<FunctionCall>)
    ensures Grew(st, r.st)
    ensures r.decision == ContinueResolve && r.item == c.(target := r.item.target)
    ensures r.item.target == Some(FFITarget(def.name, def.argTypes, def.outputType))
    ensures r.st.warningCount == st.warningCount + (if mismatch.Some? then 1 else 0)
    ensures r.st.errorCount == st.errorCount + 1 <==>
              (use == Invocable && !def.invocable) || (use == Actionable && !def.actionable)
    ensures r.st.errorCount <= st.errorCount + 1
  {
    var st1 := if mismatch.Some? then
                 HandleError(st, IncompatibleTypes, SeverityWarning,
                             Some(IncompatibleInfo(MismatchName(def.name, mismatch.value.argumentIndex),
                                                   mismatch.value.toType, mismatch.value.fromType)))
               else st;
    var st2 := if use == Invocable && !def.invocable then
                 HandleError(st1, FunctionNotInvocable, SeverityError, Some(NameInfo(def.name)))
               else if use == Actionable && !def.actionable then
                 HandleError(st1, FunctionNotActionable, SeverityError, Some(NameInfo(def.name)))
               else st1;
    Decided(st2, c.(target := Some(FFITarget(def.name, def.argTypes, def.outputType))), ContinueResolve)
  }

  /** A unit used as a trigger is the error FUNCTION_NOT_ACTIONABLE. */
  function UnitUseChecked(st: ResolveState, name: string, use: CallUse): (st': ResolveState)
    ensures Grew(st, st') && st'.warningCount == st.warningCount
    ensures st'.errorCount == st.errorCount + (if use == Actionable then 1 else 0)
  {
    if use == Actionable then HandleError(st, FunctionNotActionable, SeverityError, Some(NameInfo(name)))
    else st
  }

  /** DecideFunctionCallListPrimitive: every trigger of an action; only an
      internal failure stops the list. */
  function DecideCallListFrom(st: ResolveState, chain: seq<Block>, lookup: Lookup, calls: seq<FunctionCall>,
                              k: nat, done: seq<FunctionCall>, use: CallUse): (r: Decided<seq<FunctionCall>>)
    requires k <= |calls| && |done| == k
    requires forall i :: 0 <= i < |calls| ==> ShapedCall(calls[i])
    ensures Grew(st, r.st)
    ensures r.decision != AbortStatement
    ensures |r.item| == |calls|
    decreases |calls| - k
  {
    if k == |calls| then Decided(st, done, ContinueResolve)
    else
      var q := DecideCall(st, chain, lookup, calls[k], use);
      if q.decision == AbortResolve then Decided(q.st, done + [q.item] + calls[k + 1..], AbortResolve)
      else DecideCallListFrom(q.st, chain, lookup, calls, k + 1, done + [q.item], use)
  }

  // ---------------------------------------------------------------------
  // Assignments

  /** Where a variable of that name lives in the chain, declaring it in
      the current block when no block of the chain has it. */
  function LookupOrDeclare(chain: seq<Block>, name: string): (r: (seq<Block>, VarLocation))
    requires |chain| > 0
    ensures |r.0| == |chain|
    ensures forall k :: 0 <= k < |chain| ==> r.0[k].stmts == chain[k].stmts
    ensures LookupVariable(r.0, name) == Some(r.1)
    ensures LookupVariable(chain, name).Some? ==> r.0 == chain && r.1 == LookupVariable(chain, name).value
    ensures LookupVariable(chain, name).None? ==>
              r.0 == chain[..|chain| - 1] + [DeclareVariable(chain[|chain| - 1], name).0] &&
              r.1 == VarLocation(|chain| - 1, |chain[|chain| - 1].vars|)
  {
    match LookupVariable(chain, name)
    case Some(loc) => (chain, loc)
    case None =>
      var b := DeclareVariable(chain[|chain| - 1], name).0;
      var chain' := chain[..|chain| - 1] + [b];
      assert chain'[|chain| - 1] == b;
      assert b.vars[|b.vars| - 1].name == name;
      (chain', VarLocation(|chain| - 1, |chain[|chain| - 1].vars|))
  }

  /** Give the variable at `loc` the type `t`. */
  function SetVariableType(chain: seq<Block>, loc: VarLocation, t: PrimType): (chain': seq<Block>)
    requires loc.scope < |chain| && loc.index < |chain[loc.scope].vars|
    ensures |chain'| == |chain|
    ensures forall k :: 0 <= k < |chain| ==>
              |chain'[k].vars| == |chain[k].vars| && chain'[k].depth == chain[k].depth && chain'[k].stmts == chain[k].stmts
    ensures forall k, j :: 0 <= k < |chain| && 0 <= j < |chain[k].vars| ==>
              chain'[k].vars[j].name == chain[k].vars[j].name &&
              chain'[k].vars[j].index == chain[k].vars[j].index
    ensures chain'[loc.scope].vars[loc.index].ty == t
  {
    var b := chain[loc.scope];
    chain[loc.scope := b.(vars := b.vars[loc.index := b.vars[loc.index].(ty := t)])]
  }

  /** Retyping a variable leaves every lookup where it was. */
  lemma {:induction false} SetTypeKeepsLookup(chain: seq<Block>, loc: VarLocation, t: PrimType, name: string)
    requires loc.scope < |chain| && loc.index < |chain[loc.scope].vars|
    ensures LookupVariable(SetVariableType(chain, loc, t), name) == LookupVariable(chain, name)
  {
    var chain' := SetVariableType(chain, loc, t);
    SameNamesSameLookup(chain, chain', name);
  }

  /** Lookups only see names. */
  lemma {:induction false} SameNamesSameLookup(a: seq<Block>, b: seq<Block>, name: string)
    requires |a| == |b|
    requires forall k :: 0 <= k < |a| ==> |a[k].vars| == |b[k].vars|
    requires forall k, j :: 0 <= k < |a| && 0 <= j < |a[k].vars| ==> a[k].vars[j].name == b[k].vars[j].name
    ensures LookupVariable(a, name) == LookupVariable(b, name)
    decreases |a|
  {
    if |a| > 0 {
      SameNamesSameFind(a[|a| - 1].vars, b[|b| - 1].vars, name);
      SameNamesSameLookup(a[..|a| - 1], b[..|b| - 1], name);
    }
  }

  lemma {:induction false} SameNamesSameFind(a: seq<Variable>, b: seq<Variable>, name: string)
    requires |a| == |b|
    requires forall j :: 0 <= j < |a| ==> a[j].name == b[j].name
    ensures FindInBlock(a, name) == FindInBlock(b, name)
    decreases |a|
  {
    if |a| > 0 {
      SameNamesSameFind(a[..|a| - 1], b[..|b| - 1], name);
    }
  }

  /** PerformAssignment: the right-hand side is decided first; the
      variable is found, or declared in the current block; a variable that
      has no type yet takes the right-hand side's, and one that has a type
      the value does not convert to is the warning INCOMPATIBLE_TYPES. */
  function PerformAssignment(st: ResolveState, chain: seq<Block>, lookup: Lookup, a: Assignment): (r: Processed<Assignment>)
    requires |chain| > 0 && ShapedExp(a.rvalue)
    ensures Grew(st, r.st)
    ensures |r.chain| == |chain|
    ensures forall k :: 0 <= k < |chain| ==> r.chain[k].stmts == chain[k].stmts
    ensures r.item.lvalue.name == a.lvalue.name
    ensures r.decision == ContinueResolve ==>
              ExpBound(r.item.rvalue) &&
              var t := ExpPrimitiveType(r.item.rvalue);
              var found := LookupVariable(r.chain, a.lvalue.name);
              found.Some? &&
              r.item.lvalue.binding == Some(BindingAt(r.chain, found.value)) &&
              (LookupVariable(chain, a.lvalue.name).None? ==>
                 found.value == VarLocation(|chain| - 1, |chain[|chain| - 1].vars|) &&
                 r.item.lvalue.binding.value.ty == t)
    ensures r.decision != ContinueResolve ==> r.chain == chain
    decreases a, 1
  {
    var q := DecideExp(st, chain, lookup, a.rvalue);
    var a1 := a.(rvalue := q.item);
    if q.decision != ContinueResolve then Processed(q.st, chain, a1, q.decision)
    else
      var t := ExpPrimitiveType(q.item);
      var (chain1, loc) := LookupOrDeclare(chain, a.lvalue.name);
      var v := chain1[loc.scope].vars[loc.index];
      if v.ty != Delayed then
        var st' := if !AllowPrimitiveConversion(t, v.ty) then
                     HandleError(q.st, IncompatibleTypes, SeverityWarning, Some(IncompatibleInfo(v.name, v.ty, t)))
                   else q.st;
        Processed(st', chain1, a1.(lvalue := a.lvalue.(binding := Some(BindingAt(chain1, loc)))), ContinueResolve)
      else
        var chain2 := SetVariableType(chain1, loc, t);
        SetTypeKeepsLookup(chain1, loc, t, a.lvalue.name);
        Processed(q.st, chain2, a1.(lvalue := a.lvalue.(binding := Some(BindingAt(chain2, loc)))), ContinueResolve)
  }

  /** The warning PerformAssignment gives for an existing variable. */
  lemma AssignmentWarning(st: ResolveState, chain: seq<Block>, lookup: Lookup, a: Assignment)
    requires |chain| > 0 && ShapedExp(a.rvalue)
    requires LookupVariable(chain, a.lvalue.name).Some?
    ensures var q := DecideExp(st, chain, lookup, a.rvalue);
            var r := PerformAssignment(st, chain, lookup, a);
            var loc := LookupVariable(chain, a.lvalue.name).value;
            var v := chain[loc.scope].vars[loc.index];
            q.decision == ContinueResolve && v.ty != Delayed ==>
              r.chain == chain &&
              (r.st.warningCount == q.st.warningCount + 1 <==> !AllowPrimitiveConversion(ExpPrimitiveType(q.item), v.ty)) &&
              r.st.errorCount == q.st.errorCount
  {
  }

  // ---------------------------------------------------------------------
  // Statements

  predicate ShapedLoop(l: LoopKind)
  {
    match l
    case PlainLoop => true
    case WhileLoop(cond) => ShapedExp(cond)
    case ForLoop(_, init, toExp, _) => ShapedExp(toExp) && (init.Some? ==> ShapedExp(init.value.rvalue))
  }

  /** Every expression of the statement, and of the blocks it holds, has
      the parser's shape. */
  predicate ShapedStmt(s: Statement)
    decreases s, 1
  {
    match s.kind
    case CallStmt(c) => ShapedCall(c)
    case AssignStmt(a) => ShapedExp(a.rvalue)
    case IfStmt(cond, _, body) => ShapedOptExp(cond) && ShapedStmts(body.stmts)
    case LoopStmt(loop, body) => ShapedLoop(loop) && ShapedStmts(body.stmts)
    case _ => true
  }

  predicate ShapedStmts(stmts: seq<Statement>)
    decreases stmts, 0
  {
    forall i :: 0 <= i < |stmts| ==> ShapedStmt(stmts[i])
  }

  /** ProcessLoop's work before the body: a for loop's initial assignment
      runs in the loop's own block, a for loop without one needs its
      variable to exist already, the bound is decided in the enclosing
      block, a bound that does not convert to the variable's type is the
      warning INCOMPATIBLE_TYPES, and a variable of a type that cannot step
      is the warning TYPE_NOT_STEPPABLE, which abandons the statement. The
      returned chain ends with the loop's block. */
  function ProcessLoopHead(st: ResolveState, chain: seq<Block>, lookup: Lookup, loop: LoopKind, body: Block): (r: Processed<LoopKind>)
    requires |chain| > 0 && ShapedLoop(loop)
    ensures Grew(st, r.st)
    ensures |r.chain| == |chain| + 1 && r.chain[|chain|].stmts == body.stmts
    ensures r.item.PlainLoop? == loop.PlainLoop? && r.item.WhileLoop? == loop.WhileLoop?
    ensures loop.ForLoop? && loop.init.None? && LookupVariable(chain, loop.variable.name).None? ==>
              r.decision == AbortStatement && r.st.errorCount == st.errorCount + 1
    ensures loop.ForLoop? && r.decision == ContinueResolve ==>
              var v := r.item.variable;
              v.binding.Some? && ExpBound(r.item.toExp) &&
              SteppablePrimitive(v.binding.value.ty)
  {
    match loop
    case PlainLoop => Processed(st, chain + [body], loop, ContinueResolve)
    case WhileLoop(cond) =>
      var q := DecideExp(st, chain, lookup, cond);
      Processed(q.st, chain + [body], WhileLoop(q.item), q.decision)
    case ForLoop(_, _, _, _) => ForLoopHead(st, chain, lookup, loop, body)
  }

  /** The for-loop case of ProcessLoopHead. */
  function ForLoopHead(st: ResolveState, chain: seq<Block>, lookup: Lookup, loop: LoopKind, body: Block): (r: Processed<LoopKind>)
    requires |chain| > 0 && loop.ForLoop? && ShapedLoop(loop)
    ensures Grew(st, r.st)
    ensures |r.chain| == |chain| + 1 && r.chain[|chain|].stmts == body.stmts
    ensures r.item.ForLoop?
    ensures loop.init.None? && LookupVariable(chain, loop.variable.name).None? ==>
              r.decision == AbortStatement && r.st.errorCount == st.errorCount + 1
    ensures r.decision == ContinueResolve ==>
              var v := r.item.variable;
              v.binding.Some? && ExpBound(r.item.toExp) &&
              SteppablePrimitive(v.binding.value.ty)
  {
    var variable, init := loop.variable, loop.init;
    if init.Some? then
      var q := PerformAssignment(st, chain + [body], lookup, init.value);
      var loop1 := ForLoop(q.item.lvalue, Some(q.item), loop.toExp, loop.up);
      if q.decision != ContinueResolve then Processed(q.st, q.chain, loop1, q.decision)
      else ForLoopBound(q.st, q.chain, lookup, loop1)
    else
      match LookupVariable(chain, variable.name)
      case None =>
        Processed(HandleError(st, UndefinedVariable, SeverityError, Some(NameInfo(variable.name))),
                  chain + [body], loop, AbortStatement)
      case Some(loc) =>
        ForLoopBound(st, chain + [body], lookup, loop.(variable := variable.(binding := Some(BindingAt(chain, loc)))))
  }

  /** The second half of ProcessLoop for a for loop whose variable is bound:
      the bound, the conversion warning and the steppable check. */
  function ForLoopBound(st: ResolveState, chain: seq<Block>, lookup: Lookup, loop: LoopKind): (r: Processed<LoopKind>)
    requires |chain| > 1 && loop.ForLoop? && loop.variable.binding.Some? && ShapedExp(loop.toExp)
    ensures Grew(st, r.st)
    ensures r.chain == chain && r.item.ForLoop? && r.item.variable == loop.variable
    ensures r.decision == ContinueResolve ==> ExpBound(r.item.toExp) && SteppablePrimitive(loop.variable.binding.value.ty)
    ensures var vt := loop.variable.binding.value.ty;
            var q := DecideExp(st, chain[..|chain| - 1], lookup, loop.toExp);
            q.decision == ContinueResolve ==>
              (r.decision == ContinueResolve <==> SteppablePrimitive(vt)) &&
              r.st.errorCount == q.st.errorCount &&
              r.st.warningCount == q.st.warningCount +
                (if AllowPrimitiveConversion(ExpPrimitiveType(q.item), vt) then 0 else 1) +
                (if SteppablePrimitive(vt) then 0 else 1)
  {
    var q := DecideExp(st, chain[..|chain| - 1], lookup, loop.toExp);
    var loop1 := loop.(toExp := q.item);
    if q.decision != ContinueResolve then Processed(q.st, chain, loop1, q.decision)
    else
      var toType := ExpPrimitiveType(q.item);
      var vt := loop.variable.binding.value.ty;
      var st1 := if !AllowPrimitiveConversion(toType, vt) then
                   HandleError(q.st, IncompatibleTypes, SeverityWarning, Some(IncompatibleInfo(loop.variable.name, vt, toType)))
                 else q.st;
      if !SteppablePrimitive(vt) then
        Processed(HandleError(st1, TypeNotSteppable, SeverityWarning, Some(SteppableInfo(vt))), chain, loop1, AbortStatement)
      else
        Processed(st1, chain, loop1, ContinueResolve)
  }

  /** One statement of ProcessStatements: its location becomes current, it
      is processed, and the block it opens is processed whatever became of
      its own expression. Only an internal failure stops the walk. */
  function ProcessStatement(st: ResolveState, chain: seq<Block>, lookup: Lookup, s: Statement): (r: Processed<Statement>)
    requires |chain| > 0 && ShapedStmt(s)
    ensures Grew(st.(location := s.location), r.st)
    ensures |r.chain| == |chain|
    ensures r.decision != AbortStatement
    ensures r.item.location == s.location
    decreases s, 0
  {
    var st0 := st.(location := s.location);
    match s.kind
    case CallStmt(c) =>
      var q := DecideCall(st0, chain, lookup, c, Invocable);
      Processed(q.st, chain, s.(kind := CallStmt(q.item)), StatementOutcome(q.decision))
    case AssignStmt(a) =>
      var q := PerformAssignment(st0, chain, lookup, a);
      Processed(q.st, q.chain, s.(kind := AssignStmt(q.item)), StatementOutcome(q.decision))
    case IfStmt(cond, isElse, body) =>
      var q := DecideOptExp(st0, chain, lookup, cond);
      if q.decision == AbortResolve then Processed(q.st, chain, s.(kind := IfStmt(q.item, isElse, body)), AbortResolve)
      else
        var b := ProcessStmts(q.st, chain + [body], lookup, body.stmts);
        var body' := b.chain[|chain|].(stmts := b.item);
        Processed(b.st, b.chain[..|chain|], s.(kind := IfStmt(q.item, isElse, body')), b.decision)
    case LoopStmt(loop, body) =>
      var h := ProcessLoopHead(st0, chain, lookup, loop, body);
      if h.decision == AbortResolve then
        Processed(h.st, h.chain[..|chain|], s.(kind := LoopStmt(h.item, h.chain[|chain|])), AbortResolve)
      else
        var b := ProcessStmts(h.st, h.chain, lookup, body.stmts);
        var body' := b.chain[|chain|].(stmts := b.item);
        Processed(b.st, b.chain[..|chain|], s.(kind := LoopStmt(h.item, body')), b.decision)
    case _ => Processed(st0, chain, s, ContinueResolve)
  }

  /** How ProcessStatements reads a step's result: only ABORT_RESOLVE
      matters. */
  function StatementOutcome(d: Decision): (d': Decision)
    ensures d' != AbortStatement && (d' == AbortResolve <==> d == AbortResolve)
  {
    if d == AbortResolve then AbortResolve else ContinueResolve
  }

  /** ProcessStatements over one block's statements, the block being the
      last of the chain. */
  function ProcessStmts(st: ResolveState, chain: seq<Block>, lookup: Lookup, stmts: seq<Statement>): (r: Processed<seq<Statement>>)
    requires |chain| > 0 && ShapedStmts(stmts)
    ensures Grew(st.(location := r.st.location), r.st)
    ensures |r.chain| == |chain| && |r.item| == |stmts|
    ensures r.decision != AbortStatement
    ensures forall i :: 0 <= i < |stmts| ==> r.item[i].location == stmts[i].location
    decreases stmts, 1
  {
    if |stmts| == 0 then Processed(st, chain, [], ContinueResolve)
    else
      var s := ProcessStatement(st, chain, lookup, stmts[0]);
      GrewAt(st, s.st, stmts[0].location);
      if s.decision == AbortResolve then Processed(s.st, s.chain, [s.item] + stmts[1..], AbortResolve)
      else
        var rest := ProcessStmts(s.st, s.chain, lookup, stmts[1..]);
        GrewThen(st, s.st, rest.st);
        Processed(rest.st, rest.chain, [s.item] + rest.item, rest.decision)
  }

  predicate ShapedAction(a: Action)
  {
    (forall i :: 0 <= i < |a.triggers| ==> ShapedCall(a.triggers[i])) && ShapedStmts(a.body.stmts)
  }

  /** ProcessActions: each action in list order, its triggers decided in
      the global block as actionable calls, then its statements in its own
      block. */
  function ProcessActionsFrom(st: ResolveState, global: Block, lookup: Lookup, actions: seq<Action>,
                              k: nat, done: seq<Action>): (r: Processed<seq<Action>>)
    requires k <= |actions| && |done| == k
    requires forall i :: 0 <= i < |actions| ==> ShapedAction(actions[i])
    ensures Grew(st.(location := r.st.location), r.st)
    ensures |r.chain| == 1 && |r.item| == |actions|
    ensures r.decision != AbortStatement
    decreases |actions| - k
  {
    if k == |actions| then Processed(st, [global], done, ContinueResolve)
    else
      var a := actions[k];
      assert ShapedAction(a);
      var t := DecideCallListFrom(st.(location := a.location), [global], lookup, a.triggers, 0, [], Actionable);
      if t.decision != ContinueResolve then
        Processed(t.st, [global], done + [a.(triggers := t.item)] + actions[k + 1..], t.decision)
      else
        var b := ProcessStmts(t.st, [global, a.body], lookup, a.body.stmts);
        var a' := a.(triggers := t.item, body := b.chain[1].(stmts := b.item));
        if b.decision != ContinueResolve then
          Processed(b.st, [b.chain[0]], done + [a'] + actions[k + 1..], b.decision)
        else
          ProcessActionsFrom(b.st, b.chain[0], lookup, actions, k + 1, done + [a'])
  }

  // ---------------------------------------------------------------------
  // Units

  /** The statements and actions of a unit have the parser's shape. */
  predicate ShapedBody(u: Unit)
  {
    ShapedStmts(u.global.stmts) && forall i :: 0 <= i < |u.actions| ==> ShapedAction(u.actions[i])
  }

  /** So do its body and its output assignment. */
  predicate ShapedUnit(u: Unit)
  {
    ShapedBody(u) && (u.output.Some? ==> ShapedExp(u.output.value.assignment.rvalue))
  }

  /** ResolveInputTypes: the argument count must match; each input is
      declared in the global block with its argument's type, and an input
      named twice is the error VARIABLE_REDEFINITION. */
  function ResolveInputTypes(st: ResolveState, u: Unit, types: seq<PrimType>): (r: Decided<Unit>)
    ensures Grew(st.(location := r.st.location), r.st)
    ensures r.decision != AbortResolve
    ensures r.item.name == u.name && r.item.global.stmts == u.global.stmts && r.item.output == u.output && r.item.actions == u.actions
    ensures ArgumentCountMatchInput(u.input, types) == CountMismatch ==>
              r.decision == AbortStatement && r.st.errorCount == st.errorCount + 1
    ensures r.decision == ContinueResolve ==>
              |types| == InputCount(u.input) &&
              (u.input.Some? ==>
                 r.item.input.Some? && |r.item.input.value.variables| == |types| &&
                 forall i :: 0 <= i < |types| ==>
                   var ref := r.item.input.value.variables[i];
                   ref.name == u.input.value.variables[i].name &&
                   ref.binding.Some? && ref.binding.value.ty == types[i])
  {
    var st1 := if u.input.Some? then st.(location := u.input.value.location) else st;
    if ArgumentCountMatchInput(u.input, types) == CountMismatch then
      Decided(HandleError(st1, WrongArgumentCount, SeverityError, Some(CountInfo(u.name, |types|, InputCount(u.input)))),
              u, AbortStatement)
    else if u.input.None? then Decided(st1, u, ContinueResolve)
    else
      DeclareInputsFrom(st1, u, types, 0, [])
  }

  /** The loop over the inputs. */
  function DeclareInputsFrom(st: ResolveState, u: Unit, types: seq<PrimType>, k: nat, done: seq<VarRef>): (r: Decided<Unit>)
    requires u.input.Some? && |types| == |u.input.value.variables|
    requires k <= |types| && |done| == k
    requires forall i :: 0 <= i < k ==>
               done[i].name == u.input.value.variables[i].name &&
               done[i].binding.Some? && done[i].binding.value.ty == types[i]
    ensures Grew(st, r.st) && r.st.location == st.location
    ensures r.decision != AbortResolve
    ensures r.item.name == u.name && r.item.global.stmts == u.global.stmts && r.item.output == u.output && r.item.actions == u.actions
    ensures r.decision == ContinueResolve ==>
              r.item.input.Some? && |r.item.input.value.variables| == |types| &&
              forall i :: 0 <= i < |types| ==>
                var ref := r.item.input.value.variables[i];
                ref.name == u.input.value.variables[i].name &&
                ref.binding.Some? && ref.binding.value.ty == types[i]
    decreases |types| - k
  {
    var input := u.input.value;
    if k == |types| then
      Decided(st, u.(input := Some(input.(variables := done))), ContinueResolve)
    else
      var ref := input.variables[k];
      if LookupVariable([u.global], ref.name).Some? then
        Decided(HandleError(st, VariableRedefinition, SeverityError, Some(NameInfo(ref.name))), u, AbortStatement)
      else
        var (g, v) := DeclareVariable(u.global, ref.name);
        var v' := v.(ty := types[k]);
        var g' := g.(vars := u.global.vars + [v']);
        var ref' := ref.(binding := Some(VarBinding(g'.depth, v'.index, v'.ty)));
        DeclareInputsFrom(st, u.(global := g'), types, k + 1, done + [ref'])
  }

  /** ResolveOutputType: the output assignment runs in the global block. */
  function ResolveOutputType(st: ResolveState, u: Unit, lookup: Lookup): (r: Decided<Unit>)
    requires u.output.Some? ==> ShapedExp(u.output.value.assignment.rvalue)
    ensures Grew(st.(location := r.st.location), r.st)
    ensures r.item.name == u.name && r.item.global.stmts == u.global.stmts && r.item.actions == u.actions
    ensures r.item.output.Some? == u.output.Some?
    ensures u.output.None? ==> r.decision == ContinueResolve && r.item == u && r.st == st
  {
    if u.output.None? then Decided(st, u, ContinueResolve)
    else
      var out := u.output.value;
      var q := PerformAssignment(st.(location := out.location), [u.global], lookup, out.assignment);
      Decided(q.st, u.(global := q.chain[0].(stmts := u.global.stmts), output := Some(out.(assignment := q.item))), q.decision)
  }

  /** TSDEF_ERROR_NONE, RESOLVE_ERROR -4, RESOLVE_WARNING -5,
      RESOLVE_INITIALIZE_ERROR -6. */
  datatype ResolveCode = ResolveNone | ResolveError | ResolveWarning | ResolveInitializeError

  datatype Resolution = Resolution(code: ResolveCode, st: ResolveState, units: seq<Unit>)

  /** The values HandleError and the first reports of TSDef_ResolveUnit see
      before anything is stored: `flags` is never initialised, and neither
      is the location before the unit's input is looked at. */
  datatype Uninitialised = Uninitialised(location: nat, flags: bv32)

  /** TSDef_ResolveUnit: type the unit's inputs from the argument types
      (failure is RESOLVE_INITIALIZE_ERROR), then its output, then process
      the statements and actions of the unit and of every instance queued
      after it. Any error makes the result RESOLVE_ERROR; otherwise any
      warning makes it RESOLVE_WARNING. */
  function ResolveUnit(u: Unit, types: seq<PrimType>, lookup: Lookup, errors: Option<DefErrorList>,
                       junk: Uninitialised, instances: seq<Unit>): (r: Resolution)
    requires ShapedUnit(u) && forall i :: 0 <= i < |instances| ==> ShapedUnit(instances[i])
    ensures r.code == ResolveNone ==> r.st.errorCount == 0 && r.st.warningCount == 0
    ensures r.code == ResolveWarning ==> r.st.errorCount == 0 && r.st.warningCount > 0
    ensures r.st.errorCount > 0 ==> r.code == ResolveError || r.code == ResolveInitializeError
    ensures r.code == ResolveInitializeError <==> ResolveInputTypes(InitialState(u, errors, junk), u, types).decision != ContinueResolve
    ensures (r.code == ResolveNone || r.code == ResolveWarning) ==> |r.units| == 1 + |instances|
  {
    var st0 := InitialState(u, errors, junk);
    var i := ResolveInputTypes(st0, u, types);
    if i.decision != ContinueResolve then Resolution(ResolveInitializeError, i.st, [])
    else
      var o := ResolveOutputType(i.st, i.item, lookup);
      if o.decision == AbortResolve then Resolution(ResolveError, o.st, [o.item])
      else
        var units := [o.item] + instances;
        assert ShapedBody(o.item);
        assert forall i :: 1 <= i < |units| ==> units[i] == instances[i - 1] && ShapedUnit(instances[i - 1]);
        ProcessUnitsFrom(o.st, lookup, units, 0, [])
  }

  function InitialState(u: Unit, errors: Option<DefErrorList>, junk: Uninitialised): ResolveState
  {
    ResolveState(u.name, junk.location, errors, 0, 0, junk.flags)
  }

  /** The loop of TSDef_ResolveUnit: each unit's global statements, then its
      actions; errors so far stop it after the unit that made them. */
  function ProcessUnitsFrom(st: ResolveState, lookup: Lookup, units: seq<Unit>, k: nat, done: seq<Unit>): (r: Resolution)
    requires 0 < |units| && k <= |units| && |done| == k
    requires forall i :: 0 <= i < |units| ==> ShapedBody(units[i])
    requires k > 0 ==> st.errorCount == 0
    ensures r.code != ResolveInitializeError
    ensures r.code == ResolveNone ==> r.st.errorCount == 0 && r.st.warningCount == 0
    ensures r.code == ResolveWarning ==> r.st.errorCount == 0 && r.st.warningCount > 0
    ensures r.st.errorCount > 0 ==> r.code == ResolveError
    ensures r.st.errorCount >= st.errorCount && r.st.warningCount >= st.warningCount
    ensures (r.code == ResolveNone || r.code == ResolveWarning) ==> |r.units| == |units|
    decreases |units| - k
  {
    if k == |units| then
      Resolution(if st.warningCount != 0 then ResolveWarning else ResolveNone, st, done)
    else
      var u := units[k];
      assert ShapedBody(u);
      var s := ProcessStmts(st.(unitName := u.name), [u.global], lookup, u.global.stmts);
      var g := s.chain[0].(stmts := s.item);
      if s.decision != ContinueResolve then Resolution(ResolveError, s.st, done + [u.(global := g)])
      else
        var a := ProcessActionsFrom(s.st, g, lookup, u.actions, 0, []);
        var u' := u.(global := a.chain[0], actions := a.item);
        if a.decision != ContinueResolve || a.st.errorCount != 0 then Resolution(ResolveError, a.st, done + [u'])
        else ProcessUnitsFrom(a.st, lookup, units, k + 1, done + [u'])
  }
}
