/** The three chain algorithms of ts/api/tsint/source/expeval.c, over
    operands already evaluated.

    Evaluating one operand neither reads nor writes anything another operand
    depends on (plugin and unit calls are answered by fixed oracles), so the
    operands of a chain can be evaluated up front. The algorithms below then
    consult an operand's outcome exactly where the C evaluates it, in the
    same order, so the first failure they meet is the one the C reports, and
    an operand the C skips is never consulted. The primary and comparison
    algorithms take the per-type operator table as a parameter, as the C
    passes `op_func`. */
module ExpChain {
  import opened Wrappers
  import opened DefTypes
  import opened IntValue

  // ---------------------------------------------------------------------
  // Primary chains: precedence climbing

  /** One node of a primary chain: the operator after the operand, and the
      outcome of reading the operand in the chain's type. */
  datatype PrimStep<T> = PrimStep(op: PrimaryOp, operand: Outcome<T>)

  /** PartialPrimaryExpEvaluation from node `i` with the least precedence
      `min` it may consume. The result pairs the value with the node the C
      leaves in `processed_node`; `|steps|` stands for NULL. */
  function PrimaryPartial<T>(steps: seq<PrimStep<T>>, opf: (PrimaryOp, T, Option<T>) -> Outcome<T>,
                             i: nat, min: nat): (r: Outcome<(T, nat)>)
    requires i < |steps|
    ensures r.Done? ==> i <= r.value.1 <= |steps|
    decreases |steps| - i, 1
  {
    var left :- steps[i].operand;
    if steps[i].op == OpValue then
      var v :- opf(OpValue, left, None);
      Done((v, |steps|))
    else PrimaryLoop(steps, opf, i, min, left)
  }

  /** The do-while loop of PartialPrimaryExpEvaluation with `left` the value
      so far and `cur` the node whose operator comes next. A right operand
      is the next node's own operand, or, when the next operator binds
      tighter (or both are `^`, which groups to the right), the value of the
      sub-chain a recursive call consumes. */
  function PrimaryLoop<T>(steps: seq<PrimStep<T>>, opf: (PrimaryOp, T, Option<T>) -> Outcome<T>,
                          cur: nat, min: nat, left: T): (r: Outcome<(T, nat)>)
    requires cur < |steps|
    ensures r.Done? ==> cur <= r.value.1 <= |steps|
    decreases |steps| - cur, 0
  {
    var cp := Precedence(steps[cur].op);
    if cp < min then Done((left, cur))
    else if cur + 1 == |steps| then Unspecified
    else
      var np := Precedence(steps[cur + 1].op);
      var right :-
        if np > cp then PrimaryPartial(steps, opf, cur + 1, cp + 1)
        else if steps[cur + 1].op == Pow && steps[cur].op == Pow then PrimaryPartial(steps, opf, cur + 1, cp)
        else (var x :- steps[cur + 1].operand; Done((x, cur + 1)));
      var v :- opf(steps[cur].op, left, Some(right.0));
      if right.1 == |steps| then Unspecified
      else if right.1 + 1 == |steps| then Done((v, right.1))
      else PrimaryLoop(steps, opf, right.1, min, v)
  }

  /** The value of a whole primary chain: PartialPrimaryExpEvaluation from
      the first node with no precedence bound. */
  function PrimaryChain<T>(steps: seq<PrimStep<T>>, opf: (PrimaryOp, T, Option<T>) -> Outcome<T>): (r: Outcome<T>)
    ensures |steps| == 0 ==> r.Unspecified?
    ensures |steps| > 0 && steps[0].operand.Raised? ==> r == Raised(steps[0].operand.exception)
  {
    if |steps| == 0 then Unspecified
    else
      var p :- PrimaryPartial(steps, opf, 0, 0);
      Done(p.0)
  }

  /** A chain is well formed when every node but the last has a binary
      operator and the last one has VALUE. */
  predicate PrimaryWellFormed<T>(steps: seq<PrimStep<T>>)
  {
    |steps| > 0 && steps[|steps| - 1].op == OpValue &&
    forall k :: 0 <= k < |steps| - 1 ==> steps[k].op != OpValue
  }

  /** Reference: fold the operands left to right from node `cur`, `acc`
      being the value of the operands up to it. */
  function FoldFrom<T>(steps: seq<PrimStep<T>>, opf: (PrimaryOp, T, Option<T>) -> Outcome<T>,
                       cur: nat, acc: T): Outcome<T>
    requires cur < |steps|
    decreases |steps| - cur
  {
    if cur + 1 == |steps| then Done(acc)
    else
      var x :- steps[cur + 1].operand;
      var a :- opf(steps[cur].op, acc, Some(x));
      FoldFrom(steps, opf, cur + 1, a)
  }

  /** Reference: the operands from node `i` on grouped to the right,
      `a ^ (b ^ (c ...))`. */
  function RightFoldFrom<T>(steps: seq<PrimStep<T>>, opf: (PrimaryOp, T, Option<T>) -> Outcome<T>,
                            i: nat): Outcome<T>
    requires i < |steps|
    decreases |steps| - i
  {
    var a :- steps[i].operand;
    if i + 1 == |steps| then Done(a)
    else
      var b :- RightFoldFrom(steps, opf, i + 1);
      opf(steps[i].op, a, Some(b))
  }

  /** The value of an outcome paired with a node index, without the index. */
  function ValueOf<T>(r: Outcome<(T, nat)>): Outcome<T>
  {
    match r
    case Done(p) => Done(p.0)
    case Raised(x) => Raised(x)
    case Unspecified => Unspecified
  }

  /** All binary operators of the chain share one precedence level. */
  predicate SameLevel<T>(steps: seq<PrimStep<T>>, level: nat)
  {
    forall k :: 0 <= k < |steps| - 1 ==> Precedence(steps[k].op) == level
  }

  lemma {:induction false} SameLevelLoop<T>(steps: seq<PrimStep<T>>, opf: (PrimaryOp, T, Option<T>) -> Outcome<T>,
                                            cur: nat, min: nat, acc: T, level: nat)
    requires PrimaryWellFormed(steps) && SameLevel(steps, level)
    requires 0 < level < 3 && min <= level && cur + 1 < |steps|
    ensures ValueOf(PrimaryLoop(steps, opf, cur, min, acc)) == FoldFrom(steps, opf, cur, acc)
    decreases |steps| - cur
  {
    var right := steps[cur + 1].operand;
    if right.Done? {
      var v := opf(steps[cur].op, acc, Some(right.value));
      if v.Done? && cur + 2 < |steps| {
        SameLevelLoop(steps, opf, cur + 1, min, v.value, level);
      }
    }
  }

  /** A chain of `+`/`-` alone, or of `*`, `/`, `%` alone, groups to the
      left: `a - b - c` is `(a - b) - c`. */
  lemma SameLevelIsLeftFold<T>(steps: seq<PrimStep<T>>, opf: (PrimaryOp, T, Option<T>) -> Outcome<T>, level: nat)
    requires PrimaryWellFormed(steps) && |steps| >= 2 && SameLevel(steps, level) && 0 < level < 3
    ensures PrimaryChain(steps, opf) ==
              (var a :- steps[0].operand; FoldFrom(steps, opf, 0, a))
  {
    if steps[0].operand.Done? {
      SameLevelLoop(steps, opf, 0, 0, steps[0].operand.value, level);
    }
  }

  /** The outcome PrimaryLoop gives at a `^` node followed only by `^`
      nodes: the left value raised to the right-grouped rest, the chain
      consumed up to its last node. */
  function PowRest<T>(steps: seq<PrimStep<T>>, opf: (PrimaryOp, T, Option<T>) -> Outcome<T>,
                      cur: nat, acc: T): Outcome<(T, nat)>
    requires cur + 1 < |steps|
  {
    var b :- RightFoldFrom(steps, opf, cur + 1);
    var v :- opf(Pow, acc, Some(b));
    Done((v, |steps| - 1))
  }

  lemma {:induction false} PowLoop<T>(steps: seq<PrimStep<T>>, opf: (PrimaryOp, T, Option<T>) -> Outcome<T>,
                                      cur: nat, min: nat, acc: T)
    requires PrimaryWellFormed(steps) && min <= 3 && cur + 1 < |steps|
    requires forall k :: 0 <= k < |steps| - 1 ==> steps[k].op == Pow
    ensures PrimaryLoop(steps, opf, cur, min, acc) == PowRest(steps, opf, cur, acc)
    decreases |steps| - cur
  {
    if cur + 2 < |steps| {
      var a := steps[cur + 1].operand;
      if a.Done? {
        PowLoop(steps, opf, cur + 1, 3, a.value);
      }
    }
  }

  /** A chain of `^` alone groups to the right: `a ^ b ^ c` is
      `a ^ (b ^ c)`. */
  lemma PowIsRightFold<T>(steps: seq<PrimStep<T>>, opf: (PrimaryOp, T, Option<T>) -> Outcome<T>)
    requires PrimaryWellFormed(steps) && |steps| >= 2
    requires forall k :: 0 <= k < |steps| - 1 ==> steps[k].op == Pow
    ensures PrimaryChain(steps, opf) == RightFoldFrom(steps, opf, 0)
  {
    if steps[0].operand.Done? {
      PowLoop(steps, opf, 0, 0, steps[0].operand.value);
    }
  }

  /** `a op1 b op2 c` with `op2` binding tighter: `a op1 (b op2 c)`,
      the operands still read left to right. */
  lemma TighterRightBindsFirst<T>(op1: PrimaryOp, op2: PrimaryOp, a: Outcome<T>, b: Outcome<T>, c: Outcome<T>,
                                  opf: (PrimaryOp, T, Option<T>) -> Outcome<T>)
    requires op1 != OpValue && Precedence(op1) < Precedence(op2)
    ensures PrimaryChain([PrimStep(op1, a), PrimStep(op2, b), PrimStep(OpValue, c)], opf) ==
              (var x :- a; var y :- b; var z :- c; var w :- opf(op2, y, Some(z)); opf(op1, x, Some(w)))
  {
    var steps := [PrimStep(op1, a), PrimStep(op2, b), PrimStep(OpValue, c)];
    var cp := Precedence(op1);
    if a.Done? && b.Done? {
      assert PrimaryLoop(steps, opf, 1, cp + 1, b.value) ==
               (var z :- c; var w :- opf(op2, b.value, Some(z)); Done((w, 2)));
      assert PrimaryPartial(steps, opf, 1, cp + 1) ==
               (var z :- c; var w :- opf(op2, b.value, Some(z)); Done((w, 2)));
      assert PrimaryPartial(steps, opf, 0, 0) == PrimaryLoop(steps, opf, 0, 0, a.value);
    }
  }

  /** `a op1 b op2 c` with `op1` binding at least as tightly (and not both
      `^`): `(a op1 b) op2 c`. */
  lemma LooserRightBindsLast<T>(op1: PrimaryOp, op2: PrimaryOp, a: Outcome<T>, b: Outcome<T>, c: Outcome<T>,
                                opf: (PrimaryOp, T, Option<T>) -> Outcome<T>)
    requires op1 != OpValue && op2 != OpValue && Precedence(op1) >= Precedence(op2) && !(op1 == Pow && op2 == Pow)
    ensures PrimaryChain([PrimStep(op1, a), PrimStep(op2, b), PrimStep(OpValue, c)], opf) ==
              (var x :- a; var y :- b; var u :- opf(op1, x, Some(y)); var z :- c; opf(op2, u, Some(z)))
  {
    var steps := [PrimStep(op1, a), PrimStep(op2, b), PrimStep(OpValue, c)];
    if a.Done? && b.Done? {
      var u := opf(op1, a.value, Some(b.value));
      assert PrimaryChain(steps, opf) == ValueOf(PrimaryLoop(steps, opf, 0, 0, a.value));
      if u.Done? {
        assert PrimaryLoop(steps, opf, 0, 0, a.value) == PrimaryLoop(steps, opf, 1, 0, u.value);
        if c.Done? {
          var v := opf(op2, u.value, Some(c.value));
          assert PrimaryLoop(steps, opf, 1, 0, u.value) == (var w :- v; Done((w, 2)));
          if v.Done? {
            assert PrimaryChain(steps, opf) == v;
          }
        }
      }
    }
  }

  // ---------------------------------------------------------------------
  // Comparison chains

  /** One node of a comparison chain: its operator, its left operand read
      in the chain's type, and its right operand if it has one. */
  datatype CmpStep<T> = CmpStep(op: ComparisonOp, left: Outcome<T>, right: Option<Outcome<T>>)

  /** The loop of TSInt_ComparisonExpEvaluation from node `i`, `left` the
      operand it compares next: a node without a right operand is compared
      with the next node's left operand, and the first false comparison ends
      the chain. */
  function ComparisonFrom<T>(steps: seq<CmpStep<T>>, cmp: (ComparisonOp, T, T) -> Outcome<bool>,
                             i: nat, left: T): Outcome<bool>
    requires i < |steps|
    decreases |steps| - i
  {
    if steps[i].right.None? then
      if i + 1 == |steps| then Unspecified
      else
        var r :- steps[i + 1].left;
        var b :- cmp(steps[i].op, left, r);
        if !b then Done(false) else ComparisonFrom(steps, cmp, i + 1, r)
    else
      var r :- steps[i].right.value;
      cmp(steps[i].op, left, r)
  }

  function ComparisonChain<T>(steps: seq<CmpStep<T>>, cmp: (ComparisonOp, T, T) -> Outcome<bool>): (r: Outcome<bool>)
    ensures |steps| == 0 ==> r.Unspecified?
    ensures |steps| > 0 && steps[0].left.Raised? ==> r == Raised(steps[0].left.exception)
  {
    if |steps| == 0 then Unspecified
    else
      var l :- steps[0].left;
      ComparisonFrom(steps, cmp, 0, l)
  }

  /** Only the last node holds a right operand. */
  predicate ComparisonWellFormed<T>(steps: seq<CmpStep<T>>)
  {
    |steps| > 0 && steps[|steps| - 1].right.Some? &&
    forall k :: 0 <= k < |steps| - 1 ==> steps[k].right.None?
  }

  /** Every operand was evaluated without failure. */
  predicate ComparisonOperandsDone<T>(steps: seq<CmpStep<T>>)
    requires ComparisonWellFormed(steps)
  {
    (forall k :: 0 <= k < |steps| ==> steps[k].left.Done?) && steps[|steps| - 1].right.value.Done?
  }

  /** Operand `k` of the chain `x0 op0 x1 op1 ... x(n)`. */
  function CmpOperand<T>(steps: seq<CmpStep<T>>, k: nat): T
    requires ComparisonWellFormed(steps) && ComparisonOperandsDone(steps) && k <= |steps|
  {
    if k < |steps| then steps[k].left.value else steps[|steps| - 1].right.value.value
  }

  /** Pair `k` of the chain is compared without failure. */
  predicate PairDone<T>(steps: seq<CmpStep<T>>, cmp: (ComparisonOp, T, T) -> Outcome<bool>, k: nat)
    requires ComparisonWellFormed(steps) && ComparisonOperandsDone(steps) && k < |steps|
  {
    cmp(steps[k].op, CmpOperand(steps, k), CmpOperand(steps, k + 1)).Done?
  }

  predicate PairHolds<T>(steps: seq<CmpStep<T>>, cmp: (ComparisonOp, T, T) -> Outcome<bool>, k: nat)
    requires ComparisonWellFormed(steps) && ComparisonOperandsDone(steps) && k < |steps|
  {
    cmp(steps[k].op, CmpOperand(steps, k), CmpOperand(steps, k + 1)) == Done(true)
  }

  lemma {:induction false} ComparisonFromAllPairs<T>(steps: seq<CmpStep<T>>, cmp: (ComparisonOp, T, T) -> Outcome<bool>, i: nat)
    requires ComparisonWellFormed(steps) && ComparisonOperandsDone(steps) && i < |steps|
    requires forall k :: 0 <= k < |steps| ==> PairDone(steps, cmp, k)
    ensures ComparisonFrom(steps, cmp, i, CmpOperand(steps, i)) ==
              Done(forall k :: i <= k < |steps| ==> PairHolds(steps, cmp, k))
    decreases |steps| - i
  {
    assert PairDone(steps, cmp, i);
    var all := forall k :: i <= k < |steps| ==> PairHolds(steps, cmp, k);
    if i + 1 < |steps| {
      ComparisonFromAllPairs(steps, cmp, i + 1);
      var rest := forall k :: i + 1 <= k < |steps| ==> PairHolds(steps, cmp, k);
      assert all <==> PairHolds(steps, cmp, i) && rest;
      assert CmpOperand(steps, i + 1) == steps[i + 1].left.value;
    } else {
      assert all <==> PairHolds(steps, cmp, i);
      assert CmpOperand(steps, i + 1) == steps[i].right.value.value;
      var c := cmp(steps[i].op, CmpOperand(steps, i), CmpOperand(steps, i + 1));
      assert ComparisonFrom(steps, cmp, i, CmpOperand(steps, i)) == c;
      assert c == Done(c.value);
      assert PairHolds(steps, cmp, i) <==> c.value;
    }
  }

  /** `a < b <= c` holds exactly when every adjacent pair holds. */
  lemma ComparisonChainIsConjunction<T>(steps: seq<CmpStep<T>>, cmp: (ComparisonOp, T, T) -> Outcome<bool>)
    requires ComparisonWellFormed(steps) && ComparisonOperandsDone(steps)
    requires forall k :: 0 <= k < |steps| ==> PairDone(steps, cmp, k)
    ensures ComparisonChain(steps, cmp) == Done(forall k :: 0 <= k < |steps| ==> PairHolds(steps, cmp, k))
  {
    ComparisonFromAllPairs(steps, cmp, 0);
  }

  /** A false pair ends the chain: the operands after it are never read,
      whatever their outcome. */
  lemma {:induction false} ComparisonStopsAtFalse<T>(steps: seq<CmpStep<T>>, steps': seq<CmpStep<T>>,
                                                     cmp: (ComparisonOp, T, T) -> Outcome<bool>, i: nat, left: T)
    requires i + 1 < |steps| && |steps| == |steps'| && steps[..i + 2] == steps'[..i + 2]
    requires steps[i].right.None? && steps[i + 1].left.Done?
    requires cmp(steps[i].op, left, steps[i + 1].left.value) == Done(false)
    ensures ComparisonFrom(steps, cmp, i, left) == Done(false)
    ensures ComparisonFrom(steps', cmp, i, left) == Done(false)
  {
    assert steps[i] == steps'[i] && steps[i + 1] == steps'[i + 1];
  }

  // ---------------------------------------------------------------------
  // Logical chains

  /** One node of an `and`/`or` chain with the outcomes of its operands
      read as bool, before the NOT flags are applied. A missing operand
      reads as Unspecified. */
  datatype LogicalStep = LogicalStep(op: LogicalOp, left: Outcome<bool>, leftNot: bool,
                                     right: Outcome<bool>, rightNot: bool)

  /** The left value alone decides `left op ...`. */
  predicate ShortCircuits(op: LogicalOp, left: bool)
  {
    (op == Or && left) || (op == And && !left)
  }

  /** The skip loop of PartialLogicalExpEvaluation (lines 205-210): from
      node `k`, step on while the node stepped onto has a successor and its
      operator binds at least as tightly as `cp`. */
  function SkipTo(steps: seq<LogicalStep>, k: nat, cp: nat): (r: nat)
    requires k < |steps|
    ensures k <= r < |steps|
    ensures r + 1 == |steps| || LogicalPrecedence(steps[r].op) < cp
    ensures forall j :: k <= j < r ==> LogicalPrecedence(steps[j].op) >= cp
    decreases |steps| - k
  {
    if k + 1 < |steps| && LogicalPrecedence(steps[k].op) >= cp then SkipTo(steps, k + 1, cp) else k
  }

  /** PartialLogicalExpEvaluation from node `i` with least precedence
      `min`; the index is the node left in `processed_node`, `|steps|`
      standing for NULL. */
  function LogicalPartial(steps: seq<LogicalStep>, i: nat, min: nat): (r: Outcome<(bool, nat)>)
    requires i < |steps|
    ensures r.Done? ==> i <= r.value.1 <= |steps|
    decreases |steps| - i, 1
  {
    var l :- steps[i].left;
    var left := l != steps[i].leftNot;
    if steps[i].op == LValue then Done((left, |steps|))
    else LogicalLoop(steps, i, min, left)
  }

  /** The do-while loop of PartialLogicalExpEvaluation at node `cur` with
      `left` the value so far. When `left` does not decide the operator,
      the value of `left op x` is `x`, so `left` is replaced by the next
      operand (or by the sub-chain a tighter `and` starts). The next node's
      left operand is flipped by the CURRENT node's NOT flag (line 267). */
  function LogicalLoop(steps: seq<LogicalStep>, cur: nat, min: nat, left: bool): (r: Outcome<(bool, nat)>)
    requires cur < |steps|
    ensures r.Done? ==> cur <= r.value.1 <= |steps|
    decreases |steps| - cur, 0
  {
    var cp := LogicalPrecedence(steps[cur].op);
    if cp < min then Done((left, cur))
    else if ShortCircuits(steps[cur].op, left) then
      if cur + 1 == |steps| then Done((left, |steps|))
      else
        var k := SkipTo(steps, cur + 1, cp);
        if k + 1 == |steps| then Done((left, |steps|))
        else LogicalLoop(steps, k, min, left)
    else if cur + 1 == |steps| then
      var r :- steps[cur].right;
      Done((r != steps[cur].rightNot, |steps|))
    else if LogicalPrecedence(steps[cur + 1].op) > cp then
      var p :- LogicalPartial(steps, cur + 1, cp + 1);
      if p.1 == |steps| then Done((p.0, |steps|))
      else LogicalLoop(steps, p.1, min, p.0)
    else
      var x :- steps[cur + 1].left;
      LogicalLoop(steps, cur + 1, min, x != steps[cur].leftNot)
  }

  /** TSInt_LogicalExpEvaluation. */
  function LogicalChain(steps: seq<LogicalStep>): (r: Outcome<bool>)
    ensures |steps| == 0 ==> r.Unspecified?
    ensures |steps| > 0 && steps[0].left.Raised? ==> r == Raised(steps[0].left.exception)
  {
    if |steps| == 0 then Unspecified
    else
      var p :- LogicalPartial(steps, 0, 0);
      Done(p.0)
  }

  // ---------------------------------------------------------------------
  // Logical chains against a reference

  /** Every node has a binary operator. */
  predicate LogicalBinary(steps: seq<LogicalStep>)
  {
    |steps| > 0 && forall k :: 0 <= k < |steps| ==> steps[k].op != LValue
  }

  /** A lone VALUE node, or a chain of binary nodes. */
  predicate LogicalWellFormed(steps: seq<LogicalStep>)
  {
    (|steps| == 1 && steps[0].op == LValue) || LogicalBinary(steps)
  }

  /** Every operand the chain names was evaluated without failure. */
  predicate LogicalOperandsDone(steps: seq<LogicalStep>)
  {
    (forall k :: 0 <= k < |steps| ==> steps[k].left.Done?) &&
    (|steps| > 0 && steps[|steps| - 1].op != LValue ==> steps[|steps| - 1].right.Done?)
  }

  /** Operand `k` of `x0 op0 x1 op1 ... x(n)` with its NOT flag applied. */
  function LOp(steps: seq<LogicalStep>, k: nat): bool
    requires LogicalOperandsDone(steps)
    requires k < |steps| || (k == |steps| > 0 && steps[k - 1].op != LValue)
  {
    if k < |steps| then steps[k].left.value != steps[k].leftNot
    else steps[k - 1].right.value != steps[k - 1].rightNot
  }

  /** Reference semantics, read left to right: `o` is the disjunction of
      the `and` groups already closed and `a` the conjunction of the open
      one. `or` closes the open group. */
  function RefFrom(steps: seq<LogicalStep>, k: nat, o: bool, a: bool): bool
    requires LogicalBinary(steps) && LogicalOperandsDone(steps) && k <= |steps|
    decreases |steps| - k
  {
    if k == |steps| then o || a
    else if steps[k].op == And then RefFrom(steps, k + 1, o, a && LOp(steps, k + 1))
    else RefFrom(steps, k + 1, o || a, LOp(steps, k + 1))
  }

  /** The value an `and`/`or` chain has with `and` binding tighter than
      `or` and each NOT applying to its own operand. */
  function LogicalReference(steps: seq<LogicalStep>): bool
    requires LogicalWellFormed(steps) && LogicalOperandsDone(steps)
  {
    if steps[0].op == LValue then LOp(steps, 0) else RefFrom(steps, 0, false, LOp(steps, 0))
  }

  /** The `and` group open at node `j` with conjunction `a` so far: its
      conjunction once closed, and the node whose `or` closes it (`|steps|`
      when it runs to the end). */
  function AndRun(steps: seq<LogicalStep>, j: nat, a: bool): (r: (bool, nat))
    requires LogicalBinary(steps) && LogicalOperandsDone(steps) && j <= |steps|
    ensures j <= r.1 <= |steps|
    ensures r.1 < |steps| ==> steps[r.1].op == Or
    ensures !a ==> !r.0
    decreases |steps| - j
  {
    if j == |steps| then (a, j)
    else if steps[j].op == And then AndRun(steps, j + 1, a && LOp(steps, j + 1))
    else (a, j)
  }

  /** Once some group holds, the chain holds. */
  lemma {:induction false} RefFromTrue(steps: seq<LogicalStep>, k: nat, a: bool)
    requires LogicalBinary(steps) && LogicalOperandsDone(steps) && k <= |steps|
    ensures RefFrom(steps, k, true, a)
    decreases |steps| - k
  {
    if k < |steps| {
      RefFromTrue(steps, k + 1, if steps[k].op == And then a && LOp(steps, k + 1) else LOp(steps, k + 1));
    }
  }

  /** Reading through an `and` group is closing it. */
  lemma {:induction false} RefFromAndRun(steps: seq<LogicalStep>, j: nat, o: bool, a: bool)
    requires LogicalBinary(steps) && LogicalOperandsDone(steps) && j <= |steps|
    ensures RefFrom(steps, j, o, a) == RefFrom(steps, AndRun(steps, j, a).1, o, AndRun(steps, j, a).0)
    decreases |steps| - j
  {
    if j < |steps| && steps[j].op == And {
      RefFromAndRun(steps, j + 1, o, a && LOp(steps, j + 1));
    }
  }

  /** A false conjunction stays false up to the first `or`. */
  lemma {:induction false} AndRunFalse(steps: seq<LogicalStep>, j: nat, k: nat)
    requires LogicalBinary(steps) && LogicalOperandsDone(steps) && j <= k < |steps|
    requires forall i :: j <= i < k ==> steps[i].op == And
    requires steps[k].op == Or
    ensures AndRun(steps, j, false) == (false, k)
    decreases k - j
  {
    if j < k {
      AndRunFalse(steps, j + 1, k);
    }
  }

  /** Each node's NOT flag equals its predecessor's, so reading the next
      operand with the current node's flag (line 267) reads it right. */
  predicate NotFlagsAgree(steps: seq<LogicalStep>)
  {
    forall k :: 0 < k < |steps| ==> steps[k].leftNot == steps[k - 1].leftNot
  }

  /** The chain does not end in `... and x or y`, where the skip of a false
      `and` group runs onto the last node (lines 205-219). */
  predicate NoSkipOverrun(steps: seq<LogicalStep>)
  {
    !(|steps| >= 2 && steps[|steps| - 1].op == Or && steps[|steps| - 2].op == And)
  }

  /** An `and` group evaluated by the loop at precedence 2. */
  lemma {:induction false} AndGroupLoop(steps: seq<LogicalStep>, j: nat, left: bool)
    requires LogicalBinary(steps) && LogicalOperandsDone(steps) && NotFlagsAgree(steps) && NoSkipOverrun(steps)
    requires j < |steps| && steps[j].op == And
    ensures LogicalLoop(steps, j, 2, left) == Done(AndRun(steps, j, left))
    decreases |steps| - j
  {
    var n := |steps|;
    if !left {
      if j + 1 < n {
        var k := SkipTo(steps, j + 1, 2);
        if k + 1 == n {
          assert forall i :: j <= i < n ==> steps[i].op == And by {
            forall i | j <= i < n ensures steps[i].op == And {
              if j < i < k { assert LogicalPrecedence(steps[i].op) >= 2; }
            }
          }
          AndRunAllAnd(steps, j, false);
        } else {
          assert steps[k].op == Or;
          assert forall i :: j <= i < k ==> steps[i].op == And by {
            forall i | j <= i < k ensures steps[i].op == And {
              if j < i { assert LogicalPrecedence(steps[i].op) >= 2; }
            }
          }
          AndRunFalse(steps, j, k);
        }
      }
    } else if j + 1 < n {
      var x := steps[j + 1].left.value != steps[j].leftNot;
      assert x == LOp(steps, j + 1);
      if steps[j + 1].op == And {
        AndGroupLoop(steps, j + 1, x);
      }
    }
  }

  /** A group of `and`s running to the end closes at the end. */
  lemma {:induction false} AndRunAllAnd(steps: seq<LogicalStep>, j: nat, a: bool)
    requires LogicalBinary(steps) && LogicalOperandsDone(steps) && j <= |steps|
    requires forall i :: j <= i < |steps| ==> steps[i].op == And
    ensures AndRun(steps, j, a).1 == |steps|
    ensures !a ==> AndRun(steps, j, a) == (false, |steps|)
    decreases |steps| - j
  {
    if j < |steps| {
      AndRunAllAnd(steps, j + 1, a && LOp(steps, j + 1));
    }
  }

  /** The loop at precedence 0 computes the reference from node `cur`,
      with no group closed yet true. */
  lemma {:induction false} TopLoop(steps: seq<LogicalStep>, cur: nat, left: bool)
    requires LogicalBinary(steps) && LogicalOperandsDone(steps) && NotFlagsAgree(steps) && NoSkipOverrun(steps)
    requires cur < |steps|
    ensures ValueOf(LogicalLoop(steps, cur, 0, left)) == Done(RefFrom(steps, cur, false, left))
    decreases |steps| - cur, 1
  {
    var n := |steps|;
    if steps[cur].op == And {
      // The first group of the chain, read by the loop itself.
      AndGroupLoopTop(steps, cur, left);
    } else if left {
      RefFromTrue(steps, cur + 1, LOp(steps, cur + 1));
      if cur + 1 < n {
        var k := SkipTo(steps, cur + 1, 1);
        assert k + 1 == n;
      }
    } else if cur + 1 < n {
      if steps[cur + 1].op == And {
        var x := LOp(steps, cur + 1);
        AndGroupLoop(steps, cur + 1, x);
        var g := AndRun(steps, cur + 1, x);
        RefFromAndRun(steps, cur + 1, false, x);
        assert LogicalPartial(steps, cur + 1, 2) == Done(g);
        if g.1 < n {
          TopLoop(steps, g.1, g.0);
        }
      } else {
        var x := steps[cur + 1].left.value != steps[cur].leftNot;
        assert x == LOp(steps, cur + 1);
        TopLoop(steps, cur + 1, x);
      }
    }
  }

  /** The loop at precedence 0 on a node of the chain's first `and` group. */
  lemma {:induction false} AndGroupLoopTop(steps: seq<LogicalStep>, j: nat, left: bool)
    requires LogicalBinary(steps) && LogicalOperandsDone(steps) && NotFlagsAgree(steps) && NoSkipOverrun(steps)
    requires j < |steps| && steps[j].op == And
    ensures ValueOf(LogicalLoop(steps, j, 0, left)) == Done(RefFrom(steps, j, false, left))
    decreases |steps| - j, 0
  {
    var n := |steps|;
    if !left {
      RefFromAndRun(steps, j, false, false);
      if j + 1 < n {
        var k := SkipTo(steps, j + 1, 2);
        if k + 1 == n {
          assert forall i :: j <= i < n ==> steps[i].op == And by {
            forall i | j <= i < n ensures steps[i].op == And {
              if j < i < k { assert LogicalPrecedence(steps[i].op) >= 2; }
            }
          }
          AndRunAllAnd(steps, j, false);
        } else {
          assert forall i :: j <= i < k ==> steps[i].op == And by {
            forall i | j <= i < k ensures steps[i].op == And {
              if j < i { assert LogicalPrecedence(steps[i].op) >= 2; }
            }
          }
          AndRunFalse(steps, j, k);
          TopLoop(steps, k, false);
        }
      } else {
        AndRunAllAnd(steps, j, false);
      }
    } else if j + 1 < n {
      var x := steps[j + 1].left.value != steps[j].leftNot;
      assert x == LOp(steps, j + 1);
      if steps[j + 1].op == And {
        AndGroupLoopTop(steps, j + 1, x);
      } else {
        TopLoop(steps, j + 1, x);
      }
    }
  }

  /** Without the two patterns that trip it, the chain evaluates to the
      reference value. */
  lemma LogicalChainMatchesReference(steps: seq<LogicalStep>)
    requires LogicalWellFormed(steps) && LogicalOperandsDone(steps)
    requires NotFlagsAgree(steps) && NoSkipOverrun(steps)
    ensures LogicalChain(steps) == Done(LogicalReference(steps))
  {
    if steps[0].op != LValue {
      TopLoop(steps, 0, LOp(steps, 0));
    }
  }

  /** `false and false or true`: the false `and` group is skipped up to the
      last node and its `or true` is never read, so the chain is false. */
  lemma SkipOverrunCounterexample()
    ensures var steps := [LogicalStep(And, Done(false), false, Unspecified, false),
                          LogicalStep(Or, Done(false), false, Done(true), false)];
            LogicalChain(steps) == Done(false) && LogicalReference(steps)
  {
    var steps := [LogicalStep(And, Done(false), false, Unspecified, false),
                  LogicalStep(Or, Done(false), false, Done(true), false)];
    assert SkipTo(steps, 1, 2) == 1;
  }

  /** `false or not true or false`: the NOT of the middle operand is taken
      from the first node, so the middle operand reads true. */
  lemma NotFlagCounterexample()
    ensures var steps := [LogicalStep(Or, Done(false), false, Unspecified, false),
                          LogicalStep(Or, Done(true), true, Done(false), false)];
            LogicalChain(steps) == Done(true) && !LogicalReference(steps)
  {
  }
}
