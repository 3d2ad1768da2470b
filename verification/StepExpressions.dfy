/** The expressions of the steps of a workflow: which are accepted, and what accepted ones refer to. */
module StepExpressions {
  import opened Text
  import opened Digraph
  import opened GraphModel
  import opened GraphTheorems
  import opened StepScope
  import J = Json
  import T = Templates
  import V = ExpressionValidator
  import E = ExpressionTheorems

  datatype Configured = Configured(step: Step, config: J.Json)

  function StepsOf(steps: seq<Configured>): (r: seq<Step>)
    ensures |r| == |steps| && forall i | 0 <= i < |steps| :: r[i] == steps[i].step
  {
    seq(|steps|, i requires 0 <= i < |steps| => steps[i].step)
  }

  const TRANSFORM := "transform"

  // ----- what a step may refer to

  ghost predicate Visible(steps: seq<Step>, graph: GraphDef, current: string, k: string) {
    && Before(steps, graph, current, k)
    && Open(steps, graph, LoopHolds, current, k)
    && Open(steps, graph, CatchHolds, current, k)
    && Open(steps, graph, FinallyHolds, current, k)
  }

  ghost function Universe(steps: seq<Step>, graph: GraphDef): set<string> {
    Elems(Keys(steps)) + Nodes(ArcsIn(graph))
  }

  lemma VisibleIsKnown(steps: seq<Step>, graph: GraphDef, current: string, k: string)
    requires Visible(steps, graph, current, k)
    ensures k in Universe(steps, graph)
  {
    if graph.edges.None? {
      var n := StepIndex(steps, current);
      var i :| 0 <= i < n && Keys(steps[..n])[i] == k;
      assert Keys(steps)[i] == k;
    } else {
      var p :| PathBetween(ArcsIn(graph), p, k, current);
      assert (p[0], p[1]) in ArcsIn(graph);
      NodesHold(ArcsIn(graph), p[0], p[1]);
    }
  }

  /** The keys a step may refer to; without a graph, those of the steps listed before it. */
  ghost function Scope(steps: seq<Configured>, graph: Option<GraphDef>, i: nat): set<string>
    requires i < |steps|
  {
    if graph.None? then Elems(Keys(StepsOf(steps)[..i]))
    else
      set k | k in Universe(StepsOf(steps), graph.value) && Visible(StepsOf(steps), graph.value, steps[i].step.key, k)
  }

  ghost predicate InSome(steps: seq<Step>, graph: Option<GraphDef>, holds: (Step, GraphDef, string) -> bool,
      k: string) {
    graph.Some? && exists s | s in steps :: holds(s, graph.value, k)
  }

  ghost function Locals(steps: seq<Configured>, graph: Option<GraphDef>, i: nat): set<string>
    requires i < |steps|
  {
    var s := steps[i].step;
    (if s.kind == TRANSFORM || InSome(StepsOf(steps), graph, LoopHolds, s.key) then {"item", "index"} else {}) +
    (if InSome(StepsOf(steps), graph, CatchHolds, s.key) then {"error"} else {})
  }

  ghost function ContextOf(steps: seq<Configured>, graph: Option<GraphDef>, i: nat): V.Context
    requires i < |steps|
  {
    V.Context(Scope(steps, graph, i), Some(steps[i].step.key), true, true, Locals(steps, graph, i), T.DEFAULTS)
  }

  ghost predicate Validated(steps: seq<Configured>, graph: Option<GraphDef>) {
    forall i | 0 <= i < |steps| :: E.Accepted(steps[i].config, ContextOf(steps, graph, i))
  }

  // ----- the check

  /** What the list of regions says about a step being inside one. */
  method Inside(regions: seq<Keyed>, key: string, ghost steps: seq<Step>, ghost graph: GraphDef,
      ghost holds: (Step, GraphDef, string) -> bool)
    returns (inside: bool)
    requires Lists(regions, steps, graph, holds)
    ensures inside == InSome(steps, Some(graph), holds, key)
  {
    inside := exists i | 0 <= i < |regions| :: key in regions[i].keys;
    if inside {
      var i :| 0 <= i < |regions| && key in regions[i].keys;
      assert regions[i] in regions && holds(regions[i].step, graph, key);
    }
    if s :| s in steps && holds(s, graph, key) {
      var r :| r in regions && r.step == s;
      var i :| 0 <= i < |regions| && regions[i] == r;
    }
  }

  datatype RegionLists = RegionLists(loops: seq<Keyed>, catches: seq<Keyed>, finallys: seq<Keyed>)

  ghost predicate ListsAll(r: RegionLists, steps: seq<Step>, graph: GraphDef) {
    Lists(r.loops, steps, graph, LoopHolds) && Lists(r.catches, steps, graph, CatchHolds) &&
        Lists(r.finallys, steps, graph, FinallyHolds)
  }

  /** The keys that the steps of a graph may refer to, at one step. */
  method ScopeIn(current: string, steps: seq<Step>, graph: GraphDef, r: RegionLists) returns (available: seq<string>)
    requires ListsAll(r, steps, graph)
    ensures forall k :: k in available <==> Visible(steps, graph, current, k)
  {
    available := GraphAvailableStepKeys(current, steps, graph);
    available := HideRegions(available, r.loops, current, steps, graph, LoopHolds);
    available := HideRegions(available, r.catches, current, steps, graph, CatchHolds);
    available := HideRegions(available, r.finallys, current, steps, graph, FinallyHolds);
  }

  method LocalsIn(s: Step, steps: seq<Step>, graph: GraphDef, r: RegionLists) returns (locals: set<string>)
    requires ListsAll(r, steps, graph)
    ensures locals ==
      (if s.kind == TRANSFORM || InSome(steps, Some(graph), LoopHolds, s.key) then {"item", "index"} else {}) +
      (if InSome(steps, Some(graph), CatchHolds, s.key) then {"error"} else {})
  {
    locals := {};
    var inLoopBody := Inside(r.loops, s.key, steps, graph, LoopHolds);
    var inCatch := Inside(r.catches, s.key, steps, graph, CatchHolds);
    if s.kind == TRANSFORM || inLoopBody { locals := locals + {"item", "index"}; }
    if inCatch { locals := locals + {"error"}; }
  }

  /** The context one step is checked in. */
  method StepContext(steps: seq<Configured>, graph: Option<GraphDef>, i: nat, previous: seq<string>, r: RegionLists)
    returns (context: V.Context)
    requires i < |steps| && previous == Keys(StepsOf(steps)[..i]) &&
      (graph.Some? ==> ListsAll(r, StepsOf(steps), graph.value))
    ensures context == ContextOf(steps, graph, i)
  {
    var s := steps[i].step;
    var available, locals := previous, if s.kind == TRANSFORM then {"item", "index"} else {};
    if graph.Some? {
      available := ScopeIn(s.key, StepsOf(steps), graph.value, r);
      locals := LocalsIn(s, StepsOf(steps), graph.value, r);
      forall k | k in available { VisibleIsKnown(StepsOf(steps), graph.value, s.key, k); }
    }
    assert Elems(available) == Scope(steps, graph, i);
    context := V.Context(Elems(available), Some(s.key), true, true, locals, T.DEFAULTS);
  }

  method ValidateExpressions(steps: seq<Configured>, graph: Option<GraphDef>) returns (ok: bool)
    ensures ok == Validated(steps, graph)
  {
    var r := RegionLists([], [], []);
    if graph.Some? {
      var loops := ForEachRegions(StepsOf(steps), graph.value);
      var catches, finallys := TryCatchRegions(StepsOf(steps), graph.value);
      r := RegionLists(loops, catches, finallys);
    }
    var previous: seq<string> := [];
    for i := 0 to |steps|
      invariant previous == Keys(StepsOf(steps)[..i])
      invariant forall j | 0 <= j < i :: E.Accepted(steps[j].config, ContextOf(steps, graph, j))
    {
      var context := StepContext(steps, graph, i, previous, r);
      var valid, issues := V.ValidateExpressionsInValue(steps[i].config, context);
      E.ValueExact(steps[i].config, context);
      if !valid { return false; }
      previous := previous + [steps[i].step.key];
    }
    ok := true;
  }
}
