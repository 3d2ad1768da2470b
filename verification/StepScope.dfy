/** Which steps the expressions of a step may refer to. */
module StepScope {
  import opened Text
  import opened Digraph
  import opened Traversal
  import opened GraphModel
  import opened GraphTheorems

  // ----- the steps before a step

  function Flip(e: Edge): Edge {
    e.(from := e.to, to := e.from)
  }

  function Flipped(edges: seq<Edge>): (r: seq<Edge>)
    ensures |r| == |edges|
  {
    seq(|edges|, i requires 0 <= i < |edges| => Flip(edges[i]))
  }

  lemma FlippedArcs(edges: seq<Edge>)
    ensures EdgeArcs(Flipped(edges)) == Reverse(EdgeArcs(edges))
  {
    forall a, b
      ensures (a, b) in EdgeArcs(Flipped(edges)) <==> (b, a) in EdgeArcs(edges)
    {
      if (a, b) in EdgeArcs(Flipped(edges)) {
        var e :| e in Flipped(edges) && Joined(e) && (From(e), To(e)) == (a, b);
        var i :| 0 <= i < |edges| && e == Flip(edges[i]);
        assert edges[i] in edges && (From(edges[i]), To(edges[i])) == (b, a);
      }
      if (b, a) in EdgeArcs(edges) {
        var e :| e in edges && Joined(e) && (From(e), To(e)) == (b, a);
        var i :| 0 <= i < |edges| && edges[i] == e;
        assert Flipped(edges)[i] == Flip(e) && Flip(e) in Flipped(edges);
      }
    }
  }

  /** The map from each step to the steps with an edge to it. */
  method ReverseMap(edges: seq<Edge>) returns (reverse: Adjacency)
    ensures ArcsOf(reverse) == Reverse(EdgeArcs(edges))
  {
    reverse := map[];
    for i := 0 to |edges|
      invariant forall key :: Lookup(reverse, key) == Targets(key, Flipped(edges[..i]))
    {
      var e := edges[i];
      assert Flipped(edges[..i + 1]) == Flipped(edges[..i]) + [Flip(e)];
      assert Flipped(edges[..i + 1])[..i] == Flipped(edges[..i]);
      if Joined(e) {
        reverse := reverse[To(e) := Lookup(reverse, To(e)) + [From(e)]];
      }
    }
    assert edges[..|edges|] == edges;
    AdjacencyArcs(Flipped(edges), reverse);
    FlippedArcs(edges);
  }

  /** One arc and then any path. */
  ghost predicate Beyond(g: Arcs, a: string, k: string) {
    exists t | (a, t) in g :: Reaches(g, t, k)
  }

  lemma BeyondIsReached(g: Arcs, a: string, k: string)
    ensures k != a ==> (Beyond(g, a, k) <==> Reaches(g, a, k))
  {
    if Beyond(g, a, k) {
      var t :| (a, t) in g && Reaches(g, t, k);
      ReachesArc(g, a, t);
      ReachesTransitive(g, a, t, k);
    }
    if k != a && Reaches(g, a, k) {
      var p :| PathBetween(g, p, a, k);
      assert (p[0], p[1]) in g;
      SlicePath(g, p, 1, |p| - 1);
    }
  }

  /** The search that collects everything before a step, but not the step itself. */
  class Ancestry {
    const reverse: Adjacency
    var seen: seq<string>

    constructor (reverse: Adjacency)
      ensures this.reverse == reverse && seen == []
    {
      this.reverse, this.seen := reverse, [];
    }

    method Visit(key: string)
      modifies this
      ensures old(seen) <= seen && Settled(ArcsOf(reverse), None, seen, key)
      ensures forall k | k in seen && k !in old(seen) ::
        Settled(ArcsOf(reverse), None, seen, k) && Beyond(ArcsOf(reverse), key, k)
      decreases Nodes(ArcsOf(reverse)) - Elems(seen)
    {
      ghost var g := ArcsOf(reverse);
      var parents := Lookup(reverse, key);
      for i := 0 to |parents|
        invariant old(seen) <= seen
        invariant forall j | 0 <= j < i :: parents[j] in seen
        invariant forall k | k in seen && k !in old(seen) :: Settled(g, None, seen, k) && Beyond(g, key, k)
      {
        var parent := parents[i];
        assert (key, parent) in g;
        if parent in seen { continue; }
        ghost var before := seen;
        seen := seen + [parent];
        NodesHold(g, key, parent);
        FewerLeft(g, before, seen, parent);
        Fewer(g, old(seen), before, seen);
        Visit(parent);
        forall k | k in seen && k !in old(seen)
          ensures Settled(g, None, seen, k) && Beyond(g, key, k)
        {
          if k in before {
            assert Settled(g, None, before, k);
          } else if k == parent {
            ReachesSelf(g, parent);
          } else {
            BeyondArc(g, key, parent, k);
          }
        }
      }
    }
  }

  lemma Fewer(g: Arcs, a: seq<string>, b: seq<string>, c: seq<string>)
    requires a <= b && Nodes(g) - Elems(c) < Nodes(g) - Elems(b)
    ensures Nodes(g) - Elems(c) < Nodes(g) - Elems(a)
  {
    assert forall k | k in a :: k in b;
    assert Nodes(g) - Elems(b) <= Nodes(g) - Elems(a);
  }

  lemma BeyondArc(g: Arcs, a: string, b: string, k: string)
    requires (a, b) in g && Beyond(g, b, k)
    ensures Beyond(g, a, k)
  {
    var t :| (b, t) in g && Reaches(g, t, k);
    ReachesArc(g, b, t);
    ReachesTransitive(g, b, t, k);
  }

  function Without(keys: seq<string>, hidden: seq<string>): (r: seq<string>)
    ensures forall k :: k in r <==> k in keys && k !in hidden
  {
    if keys == [] then [] else (if keys[0] in hidden then [] else [keys[0]]) + Without(keys[1..], hidden)
  }

  function StepIndex(steps: seq<Step>, key: string): (i: nat)
    ensures i <= |steps| && (i < |steps| ==> steps[i].key == key)
  {
    if steps == [] || steps[0].key == key then 0 else 1 + StepIndex(steps[1..], key)
  }

  /** A step before another: in the order of the list when there are no edges, else a proper ancestor. */
  ghost predicate Before(steps: seq<Step>, graph: GraphDef, current: string, k: string) {
    if graph.edges.None? then
      StepIndex(steps, current) < |steps| && k in Keys(steps[..StepIndex(steps, current)])
    else
      k != current && Reaches(ArcsIn(graph), k, current)
  }

  method GraphAvailableStepKeys(current: string, steps: seq<Step>, graph: GraphDef) returns (keys: seq<string>)
    ensures forall k :: k in keys <==> Before(steps, graph, current, k)
  {
    if graph.edges.None? {
      var index := StepIndex(steps, current);
      return if 0 < index < |steps| then Keys(steps[..index]) else [];
    }
    var reverse := ReverseMap(graph.edges.value);
    var ancestry := new Ancestry(reverse);
    ancestry.Visit(current);
    keys := Without(ancestry.seen, [current]);
    ghost var g := ArcsOf(reverse);
    forall k
      ensures k in keys <==> Before(steps, graph, current, k)
    {
      BeyondIsReached(g, current, k);
      ReverseReaches(ArcsIn(graph), k, current);
      if Beyond(g, current, k) {
        var t :| (current, t) in g && Reaches(g, t, k);
        RegionWithoutStop(g, t, k);
        SettledCoversRegion(g, t, None, ancestry.seen, k);
      }
    }
  }

  // ----- regions that hide their steps

  ghost predicate LoopHolds(s: Step, graph: GraphDef, k: string) {
    var out := Outgoing(s.key, EdgesOf(graph));
    var body, done := FirstTarget(OfKind(out, "for_each_body")), FirstTarget(OfKind(out, "for_each_done"));
    s.kind == FOR_EACH && body.Some? && done.Some? && body != done && InRegion(ArcsIn(graph), body.value, done, k)
  }

  ghost predicate TryShaped(s: Step, graph: GraphDef) {
    var out := Outgoing(s.key, EdgesOf(graph));
    s.kind == TRY_CATCH && FirstTarget(OfKind(out, "try_body")).Some? && FirstTarget(OfKind(out, "try_catch")).Some? &&
    FirstTarget(OfKind(out, "try_done")).Some?
  }

  ghost predicate CatchHolds(s: Step, graph: GraphDef, k: string) {
    var out := Outgoing(s.key, EdgesOf(graph));
    var finally, done := FirstTarget(OfKind(out, "try_finally")), FirstTarget(OfKind(out, "try_done"));
    TryShaped(s, graph) &&
    InRegion(ArcsIn(graph), FirstTarget(OfKind(out, "try_catch")).value, if finally.Some? then finally else done, k)
  }

  ghost predicate FinallyHolds(s: Step, graph: GraphDef, k: string) {
    var out := Outgoing(s.key, EdgesOf(graph));
    var finally := FirstTarget(OfKind(out, "try_finally"));
    TryShaped(s, graph) && finally.Some? &&
        InRegion(ArcsIn(graph), finally.value, FirstTarget(OfKind(out, "try_done")), k)
  }

  /** The keys of one region of one step. */
  datatype Keyed = Keyed(step: Step, keys: seq<string>)

  ghost predicate Lists(regions: seq<Keyed>, steps: seq<Step>, graph: GraphDef,
      holds: (Step, GraphDef, string) -> bool) {
    && (forall r | r in regions :: r.step in steps && forall k :: k in r.keys <==> holds(r.step, graph, k))
    && (forall s, k | s in steps && holds(s, graph, k) :: exists r | r in regions :: r.step == s)
  }

  method ForEachRegions(steps: seq<Step>, graph: GraphDef) returns (regions: seq<Keyed>)
    ensures Lists(regions, steps, graph, LoopHolds)
  {
    var edges := EdgesOf(graph);
    var next := AdjacencyMap(edges);
    regions := [];
    for i := 0 to |steps|
      invariant Lists(regions, steps[..i], graph, LoopHolds)
    {
      var s := steps[i];
      assert steps[..i + 1] == steps[..i] + [s];
      var out := Outgoing(s.key, edges);
      var body, done := FirstTarget(OfKind(out, "for_each_body")), FirstTarget(OfKind(out, "for_each_done"));
      if s.kind != FOR_EACH || body.None? || done.None? || body == done {
        SkipStep(regions, steps[..i], s, graph, LoopHolds);
        continue;
      }
      var keys := Descendants(body.value, done, next);
      AddStep(regions, steps[..i], Keyed(s, keys), graph, LoopHolds);
      regions := regions + [Keyed(s, keys)];
    }
    assert steps[..|steps|] == steps;
  }

  lemma SkipStep(regions: seq<Keyed>, steps: seq<Step>, s: Step, graph: GraphDef,
      holds: (Step, GraphDef, string) -> bool)
    requires Lists(regions, steps, graph, holds) && forall k :: !holds(s, graph, k)
    ensures Lists(regions, steps + [s], graph, holds)
  {
  }

  lemma AddStep(regions: seq<Keyed>, steps: seq<Step>, r: Keyed, graph: GraphDef,
      holds: (Step, GraphDef, string) -> bool)
    requires Lists(regions, steps, graph, holds) && forall k :: k in r.keys <==> holds(r.step, graph, k)
    ensures Lists(regions + [r], steps + [r.step], graph, holds)
  {
    var all := regions + [r];
    assert r in all;
    forall s, k | s in steps + [r.step] && holds(s, graph, k)
      ensures exists q | q in all :: q.step == s
    {
      if s in steps {
        var q :| q in regions && q.step == s;
        assert q in all;
      }
    }
  }

  /** The Catch and Finally keys of one step; none when it is not a TRY_CATCH with its connections. */
  method TryKeys(s: Step, graph: GraphDef, next: Adjacency)
    returns (catches: Option<seq<string>>, finallys: seq<string>)
    requires ArcsOf(next) == ArcsIn(graph)
    ensures catches.None? ==> !TryShaped(s, graph)
    ensures catches.Some? ==> forall k :: k in catches.value <==> CatchHolds(s, graph, k)
    ensures catches.Some? ==> forall k :: k in finallys <==> FinallyHolds(s, graph, k)
  {
    var out := Outgoing(s.key, EdgesOf(graph));
    var body, caught := FirstTarget(OfKind(out, "try_body")), FirstTarget(OfKind(out, "try_catch"));
    var finally, done := FirstTarget(OfKind(out, "try_finally")), FirstTarget(OfKind(out, "try_done"));
    if s.kind != TRY_CATCH || body.None? || caught.None? || done.None? { return None, []; }
    var keys := Descendants(caught.value, if finally.Some? then finally else done, next);
    catches, finallys := Some(keys), [];
    if finally.Some? { finallys := Descendants(finally.value, done, next); }
  }

  /** The Catch and Finally regions of every TRY_CATCH. */
  method TryCatchRegions(steps: seq<Step>, graph: GraphDef) returns (catches: seq<Keyed>, finallys: seq<Keyed>)
    ensures Lists(catches, steps, graph, CatchHolds) && Lists(finallys, steps, graph, FinallyHolds)
  {
    var next := AdjacencyMap(EdgesOf(graph));
    catches, finallys := [], [];
    for i := 0 to |steps|
      invariant Lists(catches, steps[..i], graph, CatchHolds) && Lists(finallys, steps[..i], graph, FinallyHolds)
    {
      var s := steps[i];
      assert steps[..i + 1] == steps[..i] + [s];
      var catchKeys, finallyKeys := TryKeys(s, graph, next);
      if catchKeys.None? {
        SkipStep(catches, steps[..i], s, graph, CatchHolds);
        SkipStep(finallys, steps[..i], s, graph, FinallyHolds);
        continue;
      }
      AddStep(catches, steps[..i], Keyed(s, catchKeys.value), graph, CatchHolds);
      AddStep(finallys, steps[..i], Keyed(s, finallyKeys), graph, FinallyHolds);
      catches, finallys := catches + [Keyed(s, catchKeys.value)], finallys + [Keyed(s, finallyKeys)];
    }
    assert steps[..|steps|] == steps;
  }

  /** Only steps of the same region see the steps of a region. */
  ghost predicate Open(steps: seq<Step>, graph: GraphDef, holds: (Step, GraphDef, string) -> bool, current: string,
      k: string) {
    forall s | s in steps :: holds(s, graph, k) ==> holds(s, graph, current)
  }

  method HideRegions(available: seq<string>, regions: seq<Keyed>, current: string, ghost steps: seq<Step>,
      ghost graph: GraphDef,
                     ghost holds: (Step, GraphDef, string) -> bool)
    returns (r: seq<string>)
    requires Lists(regions, steps, graph, holds)
    ensures forall k :: k in r <==> k in available && Open(steps, graph, holds, current, k)
  {
    r := available;
    for i := 0 to |regions|
      invariant forall k ::
        k in r <==> k in available && forall j | 0 <= j < i :: k in regions[j].keys ==> current in regions[j].keys
    {
      if current !in regions[i].keys { r := Without(r, regions[i].keys); }
    }
    forall k
      ensures (forall j | 0 <= j < |regions| :: k in regions[j].keys ==> current in regions[j].keys) <==>
        Open(steps, graph, holds, current, k)
    {
      OpenExact(regions, steps, graph, holds, current, k);
    }
  }

  lemma OpenExact(regions: seq<Keyed>, steps: seq<Step>, graph: GraphDef, holds: (Step, GraphDef, string) -> bool,
      current: string, k: string)
    requires Lists(regions, steps, graph, holds)
    ensures (forall j | 0 <= j < |regions| :: k in regions[j].keys ==> current in regions[j].keys) <==>
      Open(steps, graph, holds, current, k)
  {
    if forall j | 0 <= j < |regions| :: k in regions[j].keys ==> current in regions[j].keys {
      forall s | s in steps && holds(s, graph, k)
        ensures holds(s, graph, current)
      {
        var r :| r in regions && r.step == s;
        var j :| 0 <= j < |regions| && regions[j] == r;
      }
    }
    if Open(steps, graph, holds, current, k) {
      forall j | 0 <= j < |regions|
        ensures k in regions[j].keys ==> current in regions[j].keys
      {
        assert regions[j] in regions;
      }
    }
  }
}
