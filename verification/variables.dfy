/** The IDE's preset variables (ts/application/tside/win32/source/variables.c):
    the `ts_variable` environment value, a `;`-separated list of
    `name=value` assignments, parsed into a list whose head is the last
    assignment. The environment value is an input. */
module Variables {
  import opened Wrappers
  import opened Seqs

  /** struct tside_variable: the text before the first '=' and the text
      after it. */
  datatype Variable = Variable(name: seq<char>, value: seq<char>)

  /** The assignment a variable was parsed from. */
  function Text(v: Variable): seq<char>
  {
    v.name + "=" + v.value
  }

  /** AddVariable (variables.c:23-56): split at the first '='. Text without
      one is rejected (the C returns TSIDE_ERROR_MEMORY for it). */
  function AddVariable(assignment: seq<char>): (r: Option<Variable>)
    ensures r.None? <==> '=' !in assignment
    ensures r.Some? ==> Text(r.value) == assignment && '=' !in r.value.name
  {
    match IndexOf(assignment, '=')
    case None => None
    case Some(k) =>
      assert assignment == assignment[..k] + "=" + assignment[k + 1..];
      Some(Variable(assignment[..k], assignment[k + 1..]))
  }

  // ---------------------------------------------------------------------
  // Reference: the segments of the environment value

  /** The pieces of `s` between semicolons, as a split would give them. */
  function Pieces(s: seq<char>): (r: seq<seq<char>>)
    ensures |r| >= 1
    ensures forall i :: 0 <= i < |r| ==> ';' !in r[i]
    decreases |s|
  {
    match IndexOf(s, ';')
    case None => [s]
    case Some(k) => [s[..k]] + Pieces(s[k + 1..])
  }

  /** Joining the pieces gives the value back. */
  lemma {:induction false} PiecesJoin(s: seq<char>)
    ensures Join(Pieces(s)) == s
    decreases |s|
  {
    match IndexOf(s, ';')
    case None =>
    case Some(k) =>
      var rest := Pieces(s[k + 1..]);
      PiecesJoin(s[k + 1..]);
      assert ([s[..k]] + rest)[1..] == rest;
      assert s == s[..k] + ";" + s[k + 1..];
  }

  /** Pieces joined back with semicolons. */
  function Join(ps: seq<seq<char>>): seq<char>
  {
    if |ps| == 0 then []
    else if |ps| == 1 then ps[0]
    else ps[0] + ";" + Join(ps[1..])
  }

  /** The segments the loader visits: every piece, except that an empty
      piece after a final ';' is not visited. */
  function Visited(s: seq<char>): (r: seq<seq<char>>)
    ensures |r| >= 1
  {
    var p := Pieces(s);
    if |p| > 1 && p[|p| - 1] == [] then p[..|p| - 1] else p
  }

  /** ';' when the value ends with one, else nothing. */
  function Trail(s: seq<char>): seq<char>
  {
    if |s| > 0 && s[|s| - 1] == ';' then ";" else ""
  }

  predicate AllAssignments(segments: seq<seq<char>>)
  {
    forall i :: 0 <= i < |segments| ==> '=' in segments[i]
  }

  /** The variables of well-formed segments, in segment order. */
  function ParseAll(segments: seq<seq<char>>): (r: seq<Variable>)
    requires AllAssignments(segments)
    ensures |r| == |segments|
    ensures forall i :: 0 <= i < |r| ==> Text(r[i]) == segments[i] && '=' !in r[i].name
  {
    if |segments| == 0 then []
    else [AddVariable(segments[0]).value] + ParseAll(segments[1..])
  }

  // ---------------------------------------------------------------------
  // TSIDE_InitializeVariables (variables.c:59-105)

  /** The outcome: the variable list, head first, or
      TSIDE_ERROR_SYSTEM_CALL_FAILED. After a failure the global list head
      is left pointing at the freed variables when any had been added
      (`stale`). */
  datatype Loaded = Loaded(variables: seq<Variable>) | SystemCallFailed(stale: bool)

  /** One pass of the do-while loop: the outcome, or the text after the
      ';' and the list so far. */
  datatype Step = Stop(outcome: Loaded) | Continue(rest: seq<char>, list: seq<Variable>)

  /** One pass from `start` with `list` added so far: cut at the first ';',
      add the segment before it, and go on unless nothing follows. */
  function LoadStep(start: seq<char>, list: seq<Variable>): (r: Step)
    ensures r.Continue? ==> |r.rest| < |start|
  {
    var cut := IndexOf(start, ';');
    var segment := if cut.Some? then start[..cut.value] else start;
    match AddVariable(segment)
    case None => Stop(SystemCallFailed(|list| > 0))
    case Some(v) =>
      if cut.None? then Stop(Loaded([v] + list))
      else
        var rest := start[cut.value + 1..];
        if |rest| == 0 then Stop(Loaded([v] + list)) else Continue(rest, [v] + list)
  }

  /** The do-while loop from `start`. */
  function LoadFrom(start: seq<char>, list: seq<Variable>): (r: Loaded)
    decreases |start|
  {
    match LoadStep(start, list)
    case Stop(outcome) => outcome
    case Continue(rest, more) => LoadFrom(rest, more)
  }

  /** TSIDE_InitializeVariables: no `ts_variable` gives no variables. */
  function InitializeVariables(env: Option<seq<char>>): (r: Loaded)
  {
    match env
    case None => Loaded([])
    case Some(text) => LoadFrom(text, [])
  }

  /** The visited segments of a value without ';'. */
  lemma VisitedWhole(s: seq<char>)
    requires IndexOf(s, ';').None?
    ensures Visited(s) == [s]
  {
  }

  /** The visited segments of a value whose only ';' is the last char. */
  lemma VisitedLastCut(s: seq<char>, k: nat)
    requires IndexOf(s, ';') == Some(k) && k + 1 == |s|
    ensures Visited(s) == [s[..k]]
  {
    assert s[k + 1..] == [];
    assert Pieces(s) == [s[..k]] + Pieces([]);
  }

  /** The visited segments of a value with more after its first ';'. */
  lemma VisitedCut(s: seq<char>, k: nat)
    requires IndexOf(s, ';') == Some(k) && k + 1 < |s|
    ensures Visited(s) == [s[..k]] + Visited(s[k + 1..])
  {
    var rest := s[k + 1..];
    var p := Pieces(rest);
    assert Pieces(s) == [s[..k]] + p;
    if |p| > 1 && p[|p| - 1] == [] {
      DropLastCons(s[..k], p);
    }
  }

  lemma AllAssignmentsCons(a: seq<char>, w: seq<seq<char>>)
    ensures AllAssignments([a] + w) <==> '=' in a && AllAssignments(w)
  {
    var s := [a] + w;
    if AllAssignments(s) {
      assert '=' in s[0];
      forall i | 0 <= i < |w| ensures '=' in w[i] {
        assert s[i + 1] == w[i];
      }
    }
    if '=' in a && AllAssignments(w) {
      forall i | 0 <= i < |s| ensures '=' in s[i] {
        if i > 0 {
          assert s[i] == w[i - 1];
        }
      }
    }
  }

  lemma ParseAllCons(a: seq<char>, w: seq<seq<char>>)
    requires '=' in a && AllAssignments(w)
    ensures AllAssignments([a] + w)
    ensures ParseAll([a] + w) == [AddVariable(a).value] + ParseAll(w)
  {
    AllAssignmentsCons(a, w);
    assert ([a] + w)[1..] == w;
  }

  /** The loader from `start` adds exactly the parsed segments, in reverse,
      when every segment is an assignment, and fails otherwise; the list is
      left stale unless the very first assignment was bad. */
  lemma {:induction false} LoadFromCorrect(start: seq<char>, list: seq<Variable>)
    ensures LoadFrom(start, list).Loaded? <==> AllAssignments(Visited(start))
    ensures LoadFrom(start, list).Loaded? ==>
              LoadFrom(start, list).variables == Reversed(ParseAll(Visited(start))) + list
    ensures LoadFrom(start, list).SystemCallFailed? ==>
              (LoadFrom(start, list).stale <==> |list| > 0 || '=' in Visited(start)[0])
    decreases |start|, 2
  {
    var cut := IndexOf(start, ';');
    if cut.Some? && cut.value + 1 < |start| {
      LoadFromContinues(start, list, cut.value);
    } else {
      LoadFromLast(start, list);
    }
  }

  /** The loader's last segment: no ';', or only a final one. */
  lemma LoadFromLast(start: seq<char>, list: seq<Variable>)
    requires IndexOf(start, ';').None? || IndexOf(start, ';').value + 1 == |start|
    ensures LoadFrom(start, list).Loaded? <==> AllAssignments(Visited(start))
    ensures LoadFrom(start, list).Loaded? ==>
              LoadFrom(start, list).variables == Reversed(ParseAll(Visited(start))) + list
    ensures LoadFrom(start, list).SystemCallFailed? ==>
              (LoadFrom(start, list).stale <==> |list| > 0 || '=' in Visited(start)[0])
  {
    var cut := IndexOf(start, ';');
    var segment := if cut.Some? then start[..cut.value] else start;
    assert Visited(start) == [segment] by {
      if cut.None? {
        VisitedWhole(start);
      } else {
        VisitedLastCut(start, cut.value);
      }
    }
    AllAssignmentsCons(segment, []);
    if '=' in segment {
      var x := AddVariable(segment).value;
      assert LoadFrom(start, list) == Loaded([x] + list) by {
        assert LoadStep(start, list) == Stop(Loaded([x] + list));
      }
      assert ParseAll([segment]) == [x] by {
        ParseAllCons(segment, []);
      }
      ReversedCons(x, []);
    } else {
      assert LoadFrom(start, list) == SystemCallFailed(|list| > 0) by {
        assert LoadStep(start, list) == Stop(SystemCallFailed(|list| > 0));
      }
    }
  }

  /** The loader's step past a ';' with more text after it. */
  lemma {:induction false} LoadFromContinues(start: seq<char>, list: seq<Variable>, k: nat)
    requires IndexOf(start, ';') == Some(k) && k + 1 < |start|
    ensures LoadFrom(start, list).Loaded? <==> AllAssignments(Visited(start))
    ensures LoadFrom(start, list).Loaded? ==>
              LoadFrom(start, list).variables == Reversed(ParseAll(Visited(start))) + list
    ensures LoadFrom(start, list).SystemCallFailed? ==>
              (LoadFrom(start, list).stale <==> |list| > 0 || '=' in Visited(start)[0])
    decreases |start|, 1
  {
    var segment := start[..k];
    if '=' in segment {
      LoadFromGoodThenRest(start, list, k);
    } else {
      var w := Visited(start[k + 1..]);
      var v := Visited(start);
      assert v == [segment] + w by {
        VisitedCut(start, k);
      }
      assert !AllAssignments(v) by {
        AllAssignmentsCons(segment, w);
      }
      assert LoadFrom(start, list) == SystemCallFailed(|list| > 0) by {
        assert LoadStep(start, list) == Stop(SystemCallFailed(|list| > 0));
      }
      assert '=' !in v[0];
    }
  }

  /** A good segment before a ';' with more text after it: the rest is
      loaded onto the list with the segment's variable at its head. */
  lemma {:induction false} LoadFromGoodThenRest(start: seq<char>, list: seq<Variable>, k: nat)
    requires IndexOf(start, ';') == Some(k) && k + 1 < |start| && '=' in start[..k]
    ensures LoadFrom(start, list).Loaded? <==> AllAssignments(Visited(start))
    ensures LoadFrom(start, list).Loaded? ==>
              LoadFrom(start, list).variables == Reversed(ParseAll(Visited(start))) + list
    ensures LoadFrom(start, list).SystemCallFailed? ==>
              (LoadFrom(start, list).stale <==> |list| > 0 || '=' in Visited(start)[0])
    decreases |start|, 0
  {
    var segment := start[..k];
    var rest := start[k + 1..];
    var w := Visited(rest);
    var v := Visited(start);
    var r := LoadFrom(start, list);
    assert v == [segment] + w by {
      VisitedCut(start, k);
    }
    var x := AddVariable(segment).value;
    assert r == LoadFrom(rest, [x] + list) by {
      LoadFromGoodSegment(start, list, k);
    }
    LoadFromCorrect(rest, [x] + list);
    if AllAssignments(w) {
      ParseAllCons(segment, w);
      ReversedConsAppend(x, ParseAll(w), list);
    } else {
      assert !AllAssignments(v) by {
        AllAssignmentsCons(segment, w);
      }
      assert '=' in v[0];
    }
  }

  /** Consing onto a reversed list is appending after its reverse. */
  lemma ReversedConsAppend(x: Variable, s: seq<Variable>, list: seq<Variable>)
    ensures Reversed([x] + s) + list == Reversed(s) + ([x] + list)
  {
    ReversedCons(x, s);
  }

  /** A good segment before a ';': the loader goes on with the rest. */
  lemma LoadFromGoodSegment(start: seq<char>, list: seq<Variable>, k: nat)
    requires IndexOf(start, ';') == Some(k) && k + 1 < |start| && '=' in start[..k]
    ensures LoadFrom(start, list) == LoadFrom(start[k + 1..], [AddVariable(start[..k]).value] + list)
  {
    assert LoadStep(start, list) == Continue(start[k + 1..], [AddVariable(start[..k]).value] + list);
  }

  /** TSIDE_InitializeVariables loads exactly the assignments of the
      environment value, last one first, and fails when any visited segment
      lacks an '='. */
  lemma InitializeVariablesCorrect(text: seq<char>)
    ensures InitializeVariables(Some(text)).Loaded? <==> AllAssignments(Visited(text))
    ensures InitializeVariables(Some(text)).Loaded? ==>
              InitializeVariables(Some(text)).variables == Reversed(ParseAll(Visited(text)))
  {
    LoadFromCorrect(text, []);
  }

  /** Round trip: the loaded variables, written back as name=value in
      environment order and joined with ';', give the environment value
      again, less a final ';'. */
  lemma LoadedRoundTrip(text: seq<char>)
    requires InitializeVariables(Some(text)).Loaded?
    ensures var vs := Reversed(InitializeVariables(Some(text)).variables);
            Join(seq(|vs|, i requires 0 <= i < |vs| => Text(vs[i]))) + Trail(text) == text
  {
    InitializeVariablesCorrect(text);
    var segments := Visited(text);
    var vs := Reversed(InitializeVariables(Some(text)).variables);
    assert vs == ParseAll(segments);
    assert seq(|vs|, i requires 0 <= i < |vs| => Text(vs[i])) == segments;
    VisitedJoin(text);
  }

  /** The visited segments join back to the value, less a final ';'. */
  lemma VisitedJoin(s: seq<char>)
    ensures Join(Visited(s)) + Trail(s) == s
  {
    var p := Pieces(s);
    PiecesJoin(s);
    if |p| > 1 && p[|p| - 1] == [] {
      JoinDropEmpty(p);
      assert |s| > 0 && s[|s| - 1] == ';';
    } else {
      JoinEndsSemicolon(p);
    }
  }

  lemma {:induction false} JoinDropEmpty(p: seq<seq<char>>)
    requires |p| > 1 && p[|p| - 1] == []
    ensures Join(p) == Join(p[..|p| - 1]) + ";"
  {
    if |p| > 2 {
      JoinDropEmpty(p[1..]);
      assert p[1..][..|p| - 2] == p[..|p| - 1][1..];
    }
  }

  /** A join ends in ';' only when its last piece is empty. */
  lemma {:induction false} JoinEndsSemicolon(p: seq<seq<char>>)
    requires |p| >= 1
    requires forall i :: 0 <= i < |p| ==> ';' !in p[i]
    requires !(|p| > 1 && p[|p| - 1] == [])
    ensures Trail(Join(p)) == ""
  {
    if |p| > 1 {
      assert forall i :: 0 <= i < |p[1..]| ==> p[1..][i] == p[i + 1];
      JoinEndsSemicolon(p[1..]);
    } else if |p[0]| > 0 {
      assert p[0][|p[0]| - 1] in p[0];
    }
  }

  /** Kept as written: an empty `ts_variable` fails the whole load. */
  lemma EmptyValueFails()
    ensures InitializeVariables(Some("")) == SystemCallFailed(false)
  {
    assert IndexOf("", '=') == None;
  }

  /** The first pass over "a=1;;b=2" adds `a` and goes on after the
      first ';'. */
  lemma GoodSegmentFirst()
    ensures LoadStep("a=1;;b=2", []).Continue?
    ensures LoadStep("a=1;;b=2", []).rest == ";b=2" && |LoadStep("a=1;;b=2", []).list| == 1
  {
    var text := "a=1;;b=2";
    assert IndexOf(text, ';') == Some(3);
    assert AddVariable(text[..3]).Some? by {
      assert '=' == text[..3][1];
    }
    assert text[4..] == ";b=2";
  }

  /** A pass that starts at a ';' meets an empty segment and fails. */
  lemma EmptySegmentStops(list: seq<Variable>)
    requires |list| > 0
    ensures LoadStep(";b=2", list) == Stop(SystemCallFailed(true))
  {
    var rest := ";b=2";
    assert IndexOf(rest, ';') == Some(0);
    assert AddVariable(rest[..0]) == None;
  }

  /** Kept as written: an empty segment fails the load after a good
      assignment, and leaves the list head pointing at freed variables,
      because TSIDE_ShutdownVariables does not clear it. */
  lemma EmptySegmentLeavesStaleList()
    ensures InitializeVariables(Some("a=1;;b=2")).SystemCallFailed?
    ensures InitializeVariables(Some("a=1;;b=2")).stale
  {
    GoodSegmentFirst();
    var step := LoadStep("a=1;;b=2", []);
    EmptySegmentStops(step.list);
    assert LoadFrom("a=1;;b=2", []) == LoadFrom(";b=2", step.list);
  }
}
