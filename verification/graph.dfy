/** Graph definitions of the graph plugin (tscore/graph/source/definition.c):
    the bounds kept over a definition's points, and the module's count of
    active graphs with its "all graphs closed" signal. Coordinates are
    reals; IEEE doubles (NaN, rounding) are not modelled. */
module Graph {
  import opened Wrappers
  import opened IdHash
  import opened Seqs

  datatype Point = Point(x: real, y: real)

  /** A plot domain or range: min_p and max_p. */
  datatype Bounds = Bounds(min: real, max: real)

  const Zero: Bounds := Bounds(0.0, 0.0)

  /** struct graph_definition, reduced to its ids, its points (newest
      first) and the plot domain and range. */
  datatype Definition = Definition(
    graphId: nat,
    unitInvocation: nat,
    points: seq<Point>,
    domain: Bounds,
    range: Bounds)

  /** struct graph_module_data: the next graph id, the number of live
      definitions, whether graphs_closed_signal is set, and the two hashes
      from unit invocation ids and graph ids to graph ids. */
  datatype GraphModule = GraphModule(
    nextGraphId: nat,
    activeCount: nat,
    closedSignal: bool,
    graphHash: IdHash<nat>,
    unitHash: IdHash<nat>)

  // ---------------------------------------------------------------------
  // Reference: the least and greatest coordinate of a non-empty point list

  function LeastX(ps: seq<Point>): (m: real)
    requires |ps| > 0
    ensures forall i :: 0 <= i < |ps| ==> m <= ps[i].x
    ensures exists i :: 0 <= i < |ps| && m == ps[i].x
  {
    if |ps| == 1 then ps[0].x
    else
      var rest := LeastX(ps[1..]);
      assert forall i :: 1 <= i < |ps| ==> ps[i] == ps[1..][i - 1];
      if ps[0].x <= rest then ps[0].x else rest
  }

  function GreatestX(ps: seq<Point>): (m: real)
    requires |ps| > 0
    ensures forall i :: 0 <= i < |ps| ==> ps[i].x <= m
    ensures exists i :: 0 <= i < |ps| && m == ps[i].x
  {
    if |ps| == 1 then ps[0].x
    else
      var rest := GreatestX(ps[1..]);
      assert forall i :: 1 <= i < |ps| ==> ps[i] == ps[1..][i - 1];
      if ps[0].x >= rest then ps[0].x else rest
  }

  function LeastY(ps: seq<Point>): (m: real)
    requires |ps| > 0
    ensures forall i :: 0 <= i < |ps| ==> m <= ps[i].y
    ensures exists i :: 0 <= i < |ps| && m == ps[i].y
  {
    if |ps| == 1 then ps[0].y
    else
      var rest := LeastY(ps[1..]);
      assert forall i :: 1 <= i < |ps| ==> ps[i] == ps[1..][i - 1];
      if ps[0].y <= rest then ps[0].y else rest
  }

  function GreatestY(ps: seq<Point>): (m: real)
    requires |ps| > 0
    ensures forall i :: 0 <= i < |ps| ==> ps[i].y <= m
    ensures exists i :: 0 <= i < |ps| && m == ps[i].y
  {
    if |ps| == 1 then ps[0].y
    else
      var rest := GreatestY(ps[1..]);
      assert forall i :: 1 <= i < |ps| ==> ps[i] == ps[1..][i - 1];
      if ps[0].y >= rest then ps[0].y else rest
  }

  /** The bounds are exactly the extent of the points, and zero when there
      are none. */
  ghost predicate Tight(d: Definition)
  {
    if |d.points| == 0 then d.domain == Zero && d.range == Zero
    else d.domain == Bounds(LeastX(d.points), GreatestX(d.points)) &&
         d.range == Bounds(LeastY(d.points), GreatestY(d.points))
  }

  // ---------------------------------------------------------------------
  // Points (Graph_AddPoint, Graph_ClearPoints)

  /** One axis of Graph_AddPoint's update for a list that already has
      points: raise the maximum, or else lower the minimum. */
  function Widen(b: Bounds, v: real): (r: Bounds)
    ensures b.min <= b.max ==> r.min <= v <= r.max
    ensures b.min <= b.max ==> r.min == (if v < b.min then v else b.min)
    ensures b.min <= b.max ==> r.max == (if v > b.max then v else b.max)
  {
    if v > b.max then b.(max := v)
    else if v < b.min then b.(min := v)
    else b
  }

  /** Graph_AddPoint (definition.c:189-226): the point goes to the head of
      the list; the first point sets both bounds. None is
      FFILIB_ERROR_MEMORY, the definition unchanged. */
  function AddPoint(d: Definition, x: real, y: real, allocOk: bool): (r: Option<Definition>)
    ensures r.None? <==> !allocOk
    ensures r.Some? ==> r.value.points == [Point(x, y)] + d.points
    ensures r.Some? ==> r.value.domain.min <= x <= r.value.domain.max || d.domain.min > d.domain.max
    ensures r.Some? ==> r.value.range.min <= y <= r.value.range.max || d.range.min > d.range.max
  {
    if !allocOk then None
    else if |d.points| == 0 then
      Some(d.(points := [Point(x, y)], domain := Bounds(x, x), range := Bounds(y, y)))
    else
      Some(d.(points := [Point(x, y)] + d.points, domain := Widen(d.domain, x), range := Widen(d.range, y)))
  }

  /** Graph_ClearPoints (definition.c:228-238). */
  function ClearPoints(d: Definition): (r: Definition)
    ensures r.points == [] && Tight(r)
    ensures r.graphId == d.graphId && r.unitInvocation == d.unitInvocation
  {
    d.(points := [], domain := Zero, range := Zero)
  }

  /** Adding a point keeps the bounds exactly the extent of the points. */
  lemma AddPointTight(d: Definition, x: real, y: real)
    requires Tight(d)
    ensures Tight(AddPoint(d, x, y, true).value)
  {
    var r := AddPoint(d, x, y, true).value;
    if |d.points| > 0 {
      assert r.points[1..] == d.points;
      assert d.domain.min <= d.points[0].x <= d.domain.max;
      assert d.range.min <= d.points[0].y <= d.range.max;
    }
  }

  /** Tight bounds enclose every point. */
  lemma TightEncloses(d: Definition)
    requires Tight(d)
    ensures forall p :: p in d.points ==> d.domain.min <= p.x <= d.domain.max && d.range.min <= p.y <= d.range.max
  {
    forall p | p in d.points
      ensures d.domain.min <= p.x <= d.domain.max && d.range.min <= p.y <= d.range.max
    {
      var i :| 0 <= i < |d.points| && d.points[i] == p;
    }
  }

  /** A series of successful Graph_AddPoint calls, in order. */
  function AddAll(d: Definition, added: seq<Point>): (r: Definition)
    ensures r.points == Reversed(added) + d.points
    ensures r.graphId == d.graphId && r.unitInvocation == d.unitInvocation
    decreases |added|
  {
    if |added| == 0 then d
    else
      var r := AddAll(AddPoint(d, added[0].x, added[0].y, true).value, added[1..]);
      assert Reversed(added) == Reversed(added[1..]) + [added[0]];
      r
  }

  /** Any series of additions keeps the bounds tight. */
  lemma {:induction false} AddAllTight(d: Definition, added: seq<Point>)
    requires Tight(d)
    ensures Tight(AddAll(d, added))
    decreases |added|
  {
    if |added| > 0 {
      AddPointTight(d, added[0].x, added[0].y);
      AddAllTight(AddPoint(d, added[0].x, added[0].y, true).value, added[1..]);
    }
  }

  /** After any series of additions to a cleared definition, every point
      lies inside the bounds. */
  lemma AddAllEncloses(d: Definition, added: seq<Point>)
    ensures var r := AddAll(ClearPoints(d), added);
            forall p :: p in r.points ==> r.domain.min <= p.x <= r.domain.max && r.range.min <= p.y <= r.range.max
  {
    AddAllTight(ClearPoints(d), added);
    TightEncloses(AddAll(ClearPoints(d), added));
  }

  // ---------------------------------------------------------------------
  // Definitions (Graph_BeginModule, Graph_InitializeDefinition,
  // Graph_DestroyDefinition)

  /** The closed signal is set exactly when no graph is active. */
  predicate SignalValid(m: GraphModule)
  {
    m.closedSignal <==> m.activeCount == 0
  }

  /** Graph_BeginModule (definition.c:42-92): ids start at 1, no active
      graphs, the closed signal created set, both hashes empty. */
  function BeginModule(): (m: GraphModule)
    ensures SignalValid(m) && m.activeCount == 0 && m.nextGraphId == 1
    ensures Valid(m.graphHash) && Valid(m.unitHash)
    ensures forall id: nat :: Get(m.graphHash, id).None? && Get(m.unitHash, id).None?
  {
    GraphModule(1, 0, true, Init(), Init())
  }

  /** A definition request's outcome: the module afterwards, and the new
      definition unless an AddID failed. */
  datatype Created = Created(after: GraphModule, definition: Option<Definition>)

  /** Graph_InitializeDefinition (definition.c:117-166). The closed signal is
      reset first when no graph is active; the definition takes
      next_graph_id and enters both hashes. A failed graph-hash AddID
      removes the unit entry again; either failure leaves the count and
      the next id alone. */
  function InitializeDefinition(m: GraphModule, unitInvocation: nat, unitAddOk: bool, graphAddOk: bool): (r: Created)
    requires Shaped(m.graphHash) && Shaped(m.unitHash)
    ensures Shaped(r.after.graphHash) && Shaped(r.after.unitHash)
    ensures r.definition.Some? ==>
              r.definition.value == Definition(m.nextGraphId, unitInvocation, [], Zero, Zero) &&
              r.after.activeCount == m.activeCount + 1 && r.after.nextGraphId == m.nextGraphId + 1
    ensures r.definition.None? ==>
              r.after.activeCount == m.activeCount && r.after.nextGraphId == m.nextGraphId
    ensures m.activeCount == 0 ==> !r.after.closedSignal
    ensures m.activeCount != 0 ==> r.after.closedSignal == m.closedSignal
  {
    var m1 := if m.activeCount == 0 then m.(closedSignal := false) else m;
    var id := m.nextGraphId;
    var d := Definition(id, unitInvocation, [], Zero, Zero);
    match Add(m1.unitHash, unitInvocation, id, unitAddOk)
    case None => Created(m1, None)
    case Some(units) =>
      match Add(m1.graphHash, id, id, graphAddOk)
      case None => Created(m1.(unitHash := Remove(units, unitInvocation)), None)
      case Some(graphs) =>
        Created(m1.(activeCount := m.activeCount + 1, nextGraphId := id + 1, unitHash := units, graphHash := graphs), Some(d))
  }

  /** Graph_DestroyDefinition (definition.c:168-187): both ids leave their
      hashes, and the closed signal is set when the last graph goes. */
  function DestroyDefinition(m: GraphModule, d: Definition): (r: GraphModule)
    requires Shaped(m.graphHash) && Shaped(m.unitHash)
    requires m.activeCount > 0
    ensures Shaped(r.graphHash) && Shaped(r.unitHash)
    ensures r.activeCount + 1 == m.activeCount && r.nextGraphId == m.nextGraphId
    ensures r.activeCount == 0 ==> r.closedSignal
    ensures r.activeCount != 0 ==> r.closedSignal == m.closedSignal
    ensures Valid(m.graphHash) ==> Get(r.graphHash, d.graphId).None?
    ensures Valid(m.unitHash) ==> Get(r.unitHash, d.unitInvocation).None?
  {
    var units := Remove(m.unitHash, d.unitInvocation);
    var graphs := Remove(m.graphHash, d.graphId);
    RemovedIfValid(m.unitHash, d.unitInvocation);
    RemovedIfValid(m.graphHash, d.graphId);
    var count := m.activeCount - 1;
    m.(unitHash := units, graphHash := graphs, activeCount := count,
       closedSignal := if count == 0 then true else m.closedSignal)
  }

  lemma RemovedIfValid(h: IdHash<nat>, id: nat)
    requires Shaped(h)
    ensures Valid(h) ==> Get(Remove(h, id), id).None?
  {
    if Valid(h) {
      RemoveUpdates(h, id, id);
    }
  }

  /** A successful create and a destroy each keep the signal in step with
      the count, and creating then destroying restores the count and the
      signal. */
  lemma DefinitionsKeepSignal(m: GraphModule, unitInvocation: nat, graphAddOk: bool)
    requires SignalValid(m) && Shaped(m.graphHash) && Shaped(m.unitHash)
    ensures var c := InitializeDefinition(m, unitInvocation, true, graphAddOk);
            c.definition.Some? ==>
              SignalValid(c.after) &&
              SignalValid(DestroyDefinition(c.after, c.definition.value)) &&
              DestroyDefinition(c.after, c.definition.value).activeCount == m.activeCount &&
              DestroyDefinition(c.after, c.definition.value).closedSignal == m.closedSignal
    ensures m.activeCount > 0 ==> SignalValid(DestroyDefinition(m, Definition(0, unitInvocation, [], Zero, Zero)))
  {
  }

  /** Kept as written: when the first graph fails to register, the closed
      signal stays reset with no graph active, so Graph_EndModule's wait
      for it never returns. */
  lemma FailedFirstGraphBlocksEnd(m: GraphModule, unitInvocation: nat)
    requires SignalValid(m) && m.activeCount == 0 && Shaped(m.graphHash) && Shaped(m.unitHash)
    requires Get(m.unitHash, unitInvocation).None?
    ensures var c := InitializeDefinition(m, unitInvocation, false, true);
            c.definition.None? && c.after.activeCount == 0 && !c.after.closedSignal && !SignalValid(c.after)
  {
  }

  /** Graph ids are issued in sequence and never reused: a later successful
      create gets a larger id. */
  lemma GraphIdsIncrease(m: GraphModule, u1: nat, u2: nat, ok: bool)
    requires Shaped(m.graphHash) && Shaped(m.unitHash)
    requires InitializeDefinition(m, u1, true, true).definition.Some?
    ensures var c1 := InitializeDefinition(m, u1, true, true);
            var c2 := InitializeDefinition(c1.after, u2, ok, ok);
            c2.definition.Some? ==> c2.definition.value.graphId > c1.definition.value.graphId
  {
  }
}
