/** What acceptance by the graph validator means for the runs of a workflow. */
module GraphTheorems {
  import opened Text
  import opened Digraph
  import opened Traversal
  import opened Regions
  import opened GraphModel

  ghost function RegionSet(g: Arcs, start: string, stop: string): set<string> {
    set k | k in Nodes(g) + {start} && InRegion(g, start, Some(stop), k)
  }

  lemma RegionSetExact(g: Arcs, start: string, stop: string, k: string)
    ensures k in RegionSet(g, start, stop) <==> InRegion(g, start, Some(stop), k)
  {
    if InRegion(g, start, Some(stop), k) {
      var p :| PathBetween(g, p, start, k) && Avoids(p, Some(stop));
      if |p| > 1 {
        assert (p[|p| - 2], p[|p| - 1]) in g;
        NodesHold(g, p[|p| - 2], p[|p| - 1]);
      }
    }
  }

  function TargetOf(key: string, kind: string, edges: seq<Edge>): string {
    match FirstTarget(OfKind(Outgoing(key, edges), kind))
    case Some(t) => t
    case None => ""
  }

  function EntryOf(graph: GraphDef): string {
    match StringValue(graph.entryStepKey)
    case Some(k) => k
    case None => ""
  }

  function ArcsIn(graph: GraphDef): Arcs {
    EdgeArcs(EdgesOf(graph))
  }

  predicate Leaves(e: Edge, key: string, kind: string) {
    StringValue(e.from) == Some(key) && StringValue(e.kind) == Some(kind)
  }

  /** The target of a kind is that of the first edge of that kind out of the step. */
  lemma {:induction false} TargetIsFirst(key: string, kind: string, edges: seq<Edge>, i: nat)
    requires i <= |edges| && (forall j | 0 <= j < i :: !Leaves(edges[j], key, kind))
    requires i < |edges| ==> Leaves(edges[i], key, kind)
    ensures FirstTarget(OfKind(Outgoing(key, edges), kind)) ==
      if i < |edges| then StringValue(edges[i].to) else None
  {
    if edges != [] {
      var rest := Outgoing(key, edges[1..]);
      if StringValue(edges[0].from) == Some(key) {
        assert ([edges[0]] + rest)[1..] == rest;
      } else {
        assert [] + rest == rest;
      }
      if i > 0 { TargetIsFirst(key, kind, edges[1..], i - 1); }
    }
  }

  /** No step of an accepted graph is of the legacy kind, and none has issues of its own. */
  lemma StepsAreCurrent(steps: seq<Step>, graph: GraphDef, s: Step)
    requires Accepted(steps, graph) && s in steps
    ensures s.kind != "conditional" && s.ownIssues == []
  {
    assert StepOk(s, steps, Elems(Keys(steps)), EdgesOf(graph));
  }

  lemma EdgeIsValid(steps: seq<Step>, graph: GraphDef, e: Edge)
    requires Accepted(steps, graph) && e in EdgesOf(graph)
    ensures ValidEdge(e, Elems(Keys(steps))) && (From(e), To(e)) in ArcsIn(graph)
  {
    var i :| 0 <= i < |EdgesOf(graph)| && EdgesOf(graph)[i] == e;
    assert EdgeOkAt(EdgesOf(graph), Elems(Keys(steps)), i);
  }

  lemma StepIsReached(steps: seq<Step>, graph: GraphDef, s: Step)
    requires Accepted(steps, graph) && s in steps
    ensures Reaches(ArcsIn(graph), EntryOf(graph), s.key)
  {
    var i :| 0 <= i < |steps| && steps[i] == s;
    assert Keys(steps)[i] == s.key;
  }

  lemma NodesAreSteps(steps: seq<Step>, graph: GraphDef, a: string, b: string)
    requires Accepted(steps, graph) && (a, b) in ArcsIn(graph)
    ensures a in Keys(steps) && b in Keys(steps)
  {
    var e :| e in EdgesOf(graph) && Joined(e) && (From(e), To(e)) == (a, b);
    EdgeIsValid(steps, graph, e);
  }

  /** The single edge of one kind out of a step is an arc to the target of that kind. */
  lemma TargetIsArc(steps: seq<Step>, graph: GraphDef, key: string, kind: string)
    requires Accepted(steps, graph) && |OfKind(Outgoing(key, EdgesOf(graph)), kind)| == 1
    ensures var t := TargetOf(key, kind, EdgesOf(graph));
      Resolved(OfKind(Outgoing(key, EdgesOf(graph)), kind)[0].to, Elems(Keys(steps))) && (key, t) in ArcsIn(graph)
  {
    var e := OfKind(Outgoing(key, EdgesOf(graph)), kind)[0];
    assert e in OfKind(Outgoing(key, EdgesOf(graph)), kind);
    EdgeIsValid(steps, graph, e);
  }

  // ----- every run

  /** Every run of an accepted graph visits each step at most once. */
  lemma RunsAreBounded(steps: seq<Step>, graph: GraphDef, p: seq<string>)
    requires Accepted(steps, graph) && IsPath(ArcsIn(graph), p) && p[0] == EntryOf(graph)
    ensures Distinct(p) && |p| <= |steps|
  {
    AcyclicPathDistinct(ArcsIn(graph), p);
    forall k | k in p
      ensures k in Keys(steps)
    {
      var i :| 0 <= i < |p| && p[i] == k;
      if i > 0 {
        assert (p[i - 1], p[i]) in ArcsIn(graph);
        NodesAreSteps(steps, graph, p[i - 1], p[i]);
      }
    }
    DistinctBound(p, Elems(Keys(steps)));
    DistinctSize(Keys(steps));
  }

  /** Every path from the entry can be carried on to a run. */
  lemma {:induction false} PathsExtendToRuns(steps: seq<Step>, graph: GraphDef, p: seq<string>) returns (q: seq<string>)
    requires Accepted(steps, graph) && IsPath(ArcsIn(graph), p) && p[0] == EntryOf(graph)
    ensures p <= q && Run(ArcsIn(graph), EntryOf(graph), q)
    decreases |steps| - |p|
  {
    RunsAreBounded(steps, graph, p);
    if a :| a in ArcsIn(graph) && a.0 == p[|p| - 1] {
      ExtendPath(ArcsIn(graph), p, a.1);
      RunsAreBounded(steps, graph, p + [a.1]);
      q := PathsExtendToRuns(steps, graph, p + [a.1]);
    } else {
      q := p;
    }
  }

  // ----- FOR_EACH

  ghost function LoopBody(s: Step, graph: GraphDef): Region {
    var edges := EdgesOf(graph);
    var body, done := TargetOf(s.key, "for_each_body", edges), TargetOf(s.key, "for_each_done", edges);
    Region(s.key, done, RegionSet(EdgeArcs(edges), body, done))
  }

  lemma LoopIsControlled(steps: seq<Step>, graph: GraphDef, s: Step)
    requires Accepted(steps, graph) && s in steps && s.kind == FOR_EACH
    ensures Controlled(ArcsIn(graph), EntryOf(graph), LoopBody(s, graph))
    ensures TargetOf(s.key, "for_each_body", EdgesOf(graph)) in LoopBody(s, graph).body
    ensures forall k | k in LoopBody(s, graph).body :: KindOf(steps, k) != Some(FOR_EACH)
  {
    var edges, g := EdgesOf(graph), ArcsIn(graph);
    assert StepOk(s, steps, Elems(Keys(steps)), edges);
    TargetIsArc(steps, graph, s.key, "for_each_body");
    TargetIsArc(steps, graph, s.key, "for_each_done");
    var body, done := TargetOf(s.key, "for_each_body", edges), TargetOf(s.key, "for_each_done", edges);
    assert LoopRegion(s.key, body, done, steps, edges);
    StepIsReached(steps, graph, s);
    RegionIsControlled(g, EntryOf(graph), s.key, body, done, RegionSet(g, body, done));
    RegionStart(g, body, Some(done));
    RegionSetExact(g, body, done, body);
    forall k { RegionSetExact(g, body, done, k); }
  }

  /** A region between a start and a stop, entered only from a header that also leads to the stop. */
  lemma RegionIsControlled(g: Arcs, entry: string, header: string, start: string, stop: string, body: set<string>)
    requires body == RegionSet(g, start, stop)
    requires header !in body && (header, stop) in g && Reaches(g, entry, header)
    requires forall k | InRegion(g, start, Some(stop), k) :: Reaches(g, k, stop)
    requires forall a, b | (a, b) in g && b in body && a !in body :: a == header
    ensures Controlled(g, entry, Region(header, stop, body))
  {
    forall k { RegionSetExact(g, start, stop, k); }
    forall a, b | (a, b) in g && a in body
      ensures b in body || b == stop
    {
      if b != stop { RegionClosed(g, start, Some(stop), a, b); }
    }
  }

  lemma StepsAreReached(steps: seq<Step>, graph: GraphDef, r: Region)
    requires Accepted(steps, graph) && Controlled(ArcsIn(graph), EntryOf(graph), r)
    ensures AllReached(ArcsIn(graph), EntryOf(graph), r)
  {
    forall x | x in r.body
      ensures Reaches(ArcsIn(graph), EntryOf(graph), x)
    {
      var b := BodyNeverEnds(ArcsIn(graph), EntryOf(graph), r, x);
      NodesAreSteps(steps, graph, x, b);
    }
  }

  /**
   The FOR_EACH step dominates every body step and Done post-dominates it; body edges lead
   only to the body or to Done; the entry of the graph is outside.
   */
  lemma LoopDominatesBody(steps: seq<Step>, graph: GraphDef, s: Step, x: string)
    requires Accepted(steps, graph) && s in steps && s.kind == FOR_EACH && x in LoopBody(s, graph).body
    ensures Dominates(ArcsIn(graph), EntryOf(graph), s.key, x)
    ensures PostDominates(ArcsIn(graph), LoopBody(s, graph).exit, x)
    ensures forall b | (x, b) in ArcsIn(graph) :: b in LoopBody(s, graph).body || b == LoopBody(s, graph).exit
    ensures EntryOf(graph) !in LoopBody(s, graph).body
  {
    LoopIsControlled(steps, graph, s);
    HeaderDominates(ArcsIn(graph), EntryOf(graph), LoopBody(s, graph), x);
    ExitPostDominates(ArcsIn(graph), EntryOf(graph), LoopBody(s, graph), x);
    EntryOutside(ArcsIn(graph), EntryOf(graph), LoopBody(s, graph));
  }

  /** In every run the body steps form one block right after the FOR_EACH step and right before Done. */
  lemma LoopRunsAsOneBlock(steps: seq<Step>, graph: GraphDef, s: Step, p: seq<string>, i: int) returns (j: int, k: int)
    requires Accepted(steps, graph) && s in steps && s.kind == FOR_EACH
    requires Run(ArcsIn(graph), EntryOf(graph), p) && 0 <= i < |p| && p[i] in LoopBody(s, graph).body
    ensures j < i < k && OneBlock(p, LoopBody(s, graph), j, k)
  {
    LoopIsControlled(steps, graph, s);
    j, k := RunHasOneBlock(ArcsIn(graph), EntryOf(graph), LoopBody(s, graph), p, i);
  }

  // ----- TRY_CATCH

  function PartsOf(s: Step, graph: GraphDef): TryParts {
    var edges := EdgesOf(graph);
    TryParts(TargetOf(s.key, "try_body", edges), TargetOf(s.key, "try_catch", edges),
             TargetOf(s.key, "try_finally", edges), TargetOf(s.key, "try_done", edges))
  }

  ghost function TryBody(s: Step, graph: GraphDef): Region {
    var p := PartsOf(s, graph);
    Region(s.key, p.finally, RegionSet(ArcsIn(graph), p.body, p.finally))
  }

  ghost function TryCaught(s: Step, graph: GraphDef): Region {
    var p := PartsOf(s, graph);
    Region(s.key, p.finally, RegionSet(ArcsIn(graph), p.caught, p.finally))
  }

  ghost function TryFinally(s: Step, graph: GraphDef): set<string> {
    var p := PartsOf(s, graph);
    RegionSet(ArcsIn(graph), p.finally, p.done)
  }

  /** All three parts of a TRY_CATCH. */
  ghost function TryWhole(s: Step, graph: GraphDef): Region {
    Region(s.key, PartsOf(s, graph).done, TryBody(s, graph).body + TryCaught(s, graph).body + TryFinally(s, graph))
  }

  /** An accepted TRY_CATCH has all four connections, Finally included, and is well formed. */
  lemma TryIsComplete(steps: seq<Step>, graph: GraphDef, s: Step)
    requires Accepted(steps, graph) && s in steps && s.kind == TRY_CATCH
    ensures |OfKind(Outgoing(s.key, EdgesOf(graph)), "try_finally")| == 1
    ensures TryRegions(s.key, PartsOf(s, graph), steps, EdgesOf(graph))
    ensures (s.key, PartsOf(s, graph).finally) in ArcsIn(graph) && (s.key, PartsOf(s, graph).done) in ArcsIn(graph)
  {
    assert StepOk(s, steps, Elems(Keys(steps)), EdgesOf(graph));
    TargetIsArc(steps, graph, s.key, "try_body");
    TargetIsArc(steps, graph, s.key, "try_catch");
    TargetIsArc(steps, graph, s.key, "try_done");
    TargetIsArc(steps, graph, s.key, "try_finally");
  }

  lemma {:induction false} KindOfKey(steps: seq<Step>, s: Step)
    requires s in steps && DistinctKeys(steps)
    ensures KindOf(steps, s.key) == Some(s.kind)
  {
    if steps[0] != s {
      var i :| 0 < i < |steps| && steps[i] == s;
      assert steps[0].key != steps[i].key;
      assert s == steps[1..][i - 1];
      assert forall i, j | 0 <= i < j < |steps[1..]| :: steps[1..][i] == steps[i + 1] && steps[1..][j] == steps[j + 1];
      KindOfKey(steps[1..], s);
    }
  }

  lemma ArcHasEdge(graph: GraphDef, a: string, b: string) returns (e: Edge)
    requires (a, b) in ArcsIn(graph)
    ensures e in EdgesOf(graph) && Joined(e) && From(e) == a && To(e) == b
  {
    e :| e in EdgesOf(graph) && Joined(e) && (From(e), To(e)) == (a, b);
  }

  lemma OnlyOfKind(out: seq<Edge>, e: Edge, kind: string)
    requires e in out && StringValue(e.kind) == Some(kind) && |OfKind(out, kind)| == 1
    ensures OfKind(out, kind)[0] == e
  {
    assert e in OfKind(out, kind);
  }

  /** An arc out of a step goes to the target of the kind of its edge, when there is one edge of that kind. */
  lemma ArcIsTarget(graph: GraphDef, key: string, t: string) returns (e: Edge)
    requires (key, t) in ArcsIn(graph)
    ensures e in Outgoing(key, EdgesOf(graph))
    ensures forall kind | StringValue(e.kind) == Some(kind) && |OfKind(Outgoing(key, EdgesOf(graph)), kind)| == 1 ::
      TargetOf(key, kind, EdgesOf(graph)) == t
  {
    e := ArcHasEdge(graph, key, t);
    var out := Outgoing(key, EdgesOf(graph));
    forall kind | StringValue(e.kind) == Some(kind) && |OfKind(out, kind)| == 1
      ensures FirstTarget(OfKind(out, kind)) == Some(t)
    {
      OnlyOfKind(out, e, kind);
    }
  }

  /** A FOR_EACH leads to the start of its body and to Done, and nowhere else. */
  lemma LoopArcs(steps: seq<Step>, graph: GraphDef, s: Step, t: string)
    requires Accepted(steps, graph) && s in steps && s.kind == FOR_EACH
    ensures (s.key, t) in ArcsIn(graph) <==>
      t == TargetOf(s.key, "for_each_body", EdgesOf(graph)) || t == LoopBody(s, graph).exit
  {
    assert StepOk(s, steps, Elems(Keys(steps)), EdgesOf(graph));
    TargetIsArc(steps, graph, s.key, "for_each_body");
    TargetIsArc(steps, graph, s.key, "for_each_done");
    if (s.key, t) in ArcsIn(graph) {
      var e := ArcIsTarget(graph, s.key, t);
      assert KindIn(e, {"for_each_body", "for_each_done"});
    }
  }

  /** A TRY_CATCH leads to its four entries, and nowhere else. */
  lemma TryArcs(steps: seq<Step>, graph: GraphDef, s: Step, t: string)
    requires Accepted(steps, graph) && s in steps && s.kind == TRY_CATCH
    ensures var p := PartsOf(s, graph);
      (s.key, t) in ArcsIn(graph) <==> t == p.body || t == p.caught || t == p.finally || t == p.done
  {
    assert StepOk(s, steps, Elems(Keys(steps)), EdgesOf(graph));
    TryIsComplete(steps, graph, s);
    TargetIsArc(steps, graph, s.key, "try_body");
    TargetIsArc(steps, graph, s.key, "try_catch");
    if (s.key, t) in ArcsIn(graph) {
      var e := ArcIsTarget(graph, s.key, t);
      assert KindIn(e, TRY_KINDS);
    }
  }

  lemma TryMembers(s: Step, graph: GraphDef, k: string)
    ensures var p, g := PartsOf(s, graph), ArcsIn(graph);
      && (k in TryBody(s, graph).body <==> InRegion(g, p.body, Some(p.finally), k))
      && (k in TryCaught(s, graph).body <==> InRegion(g, p.caught, Some(p.finally), k))
      && (k in TryFinally(s, graph) <==> InRegion(g, p.finally, Some(p.done), k))
  {
    var p, g := PartsOf(s, graph), ArcsIn(graph);
    RegionSetExact(g, p.body, p.finally, k);
    RegionSetExact(g, p.caught, p.finally, k);
    RegionSetExact(g, p.finally, p.done, k);
  }

  /** The parts are disjoint and the TRY step is in none of them. */
  lemma TryPartsDisjoint(steps: seq<Step>, graph: GraphDef, s: Step)
    requires Accepted(steps, graph) && s in steps && s.kind == TRY_CATCH
    ensures TryBody(s, graph).body !! TryCaught(s, graph).body !! TryFinally(s, graph)
    ensures s.key !in TryWhole(s, graph).body
    ensures forall k | k in TryWhole(s, graph).body :: KindOf(steps, k) != Some(TRY_CATCH)
  {
    TryIsComplete(steps, graph, s);
    KindOfKey(steps, s);
    var p, g := PartsOf(s, graph), ArcsIn(graph);
    forall k { TryMembers(s, graph, k); }
  }

  /** A part is entered only from the TRY step; Finally also from Body and Catch, at its entry. */
  lemma TryPartsEntered(steps: seq<Step>, graph: GraphDef, s: Step, a: string, b: string)
    requires Accepted(steps, graph) && s in steps && s.kind == TRY_CATCH && (a, b) in ArcsIn(graph)
    ensures b in TryBody(s, graph).body && a !in TryBody(s, graph).body ==> a == s.key && b == PartsOf(s, graph).body
    ensures b in TryCaught(s, graph).body && a !in TryCaught(s, graph).body ==>
      a == s.key && b == PartsOf(s, graph).caught
    ensures b in TryFinally(s, graph) && a !in TryFinally(s, graph) ==>
      (a == s.key || a in TryBody(s, graph).body || a in TryCaught(s, graph).body) && b == PartsOf(s, graph).finally
  {
    TryIsComplete(steps, graph, s);
    var p, g := PartsOf(s, graph), ArcsIn(graph);
    var e := ArcHasEdge(graph, a, b);
    assert TryEntries(s.key, p, EdgesOf(graph));
    assert EnteredBy(s.key, p.body, p.finally, "try_body", e, g);
    assert EnteredBy(s.key, p.caught, p.finally, "try_catch", e, g);
    assert Converges(p, e, g) || EnteredBy(s.key, p.finally, p.done, "try_finally", e, g);
    TryMembers(s, graph, a);
    TryMembers(s, graph, b);
  }

  lemma TryPartsControlled(steps: seq<Step>, graph: GraphDef, s: Step)
    requires Accepted(steps, graph) && s in steps && s.kind == TRY_CATCH
    ensures Controlled(ArcsIn(graph), EntryOf(graph), TryBody(s, graph))
    ensures Controlled(ArcsIn(graph), EntryOf(graph), TryCaught(s, graph))
  {
    var p, g := PartsOf(s, graph), ArcsIn(graph);
    TryIsComplete(steps, graph, s);
    TryPartsDisjoint(steps, graph, s);
    StepIsReached(steps, graph, s);
    forall a, b | (a, b) in g { TryPartsEntered(steps, graph, s, a, b); }
    RegionIsControlled(g, EntryOf(graph), s.key, p.body, p.finally, TryBody(s, graph).body);
    RegionIsControlled(g, EntryOf(graph), s.key, p.caught, p.finally, TryCaught(s, graph).body);
  }

  lemma FinallyEntryInside(steps: seq<Step>, graph: GraphDef, s: Step)
    requires Accepted(steps, graph) && s in steps && s.kind == TRY_CATCH
    ensures PartsOf(s, graph).finally in TryFinally(s, graph) && PartsOf(s, graph).done !in TryFinally(s, graph)
    ensures forall a, b | (a, b) in ArcsIn(graph) && a in TryFinally(s, graph) ::
      b in TryFinally(s, graph) || b == PartsOf(s, graph).done
    ensures forall k | k in TryFinally(s, graph) :: Reaches(ArcsIn(graph), k, PartsOf(s, graph).done)
  {
    TryIsComplete(steps, graph, s);
    var p, g := PartsOf(s, graph), ArcsIn(graph);
    assert [p.body, p.caught, p.finally, p.done][2] != [p.body, p.caught, p.finally, p.done][3];
    RegionStart(g, p.finally, Some(p.done));
    forall k { RegionSetExact(g, p.finally, p.done, k); }
    forall a, b | (a, b) in g && a in TryFinally(s, graph)
      ensures b in TryFinally(s, graph) || b == p.done
    {
      if b != p.done { RegionClosed(g, p.finally, Some(p.done), a, b); }
    }
  }

  /** Body, Catch and Finally together form one region from the TRY step to Done. */
  lemma TryIsControlled(steps: seq<Step>, graph: GraphDef, s: Step)
    requires Accepted(steps, graph) && s in steps && s.kind == TRY_CATCH
    ensures Controlled(ArcsIn(graph), EntryOf(graph), TryWhole(s, graph))
  {
    var p, g, whole := PartsOf(s, graph), ArcsIn(graph), TryWhole(s, graph);
    TryIsComplete(steps, graph, s);
    TryPartsDisjoint(steps, graph, s);
    TryPartsControlled(steps, graph, s);
    FinallyEntryInside(steps, graph, s);
    StepIsReached(steps, graph, s);
    DoneOutside(steps, graph, s);
    forall k | k in whole.body
      ensures Reaches(g, k, p.done)
    {
      if k !in TryFinally(s, graph) {
        assert Reaches(g, k, p.finally) && Reaches(g, p.finally, p.done);
        ReachesTransitive(g, k, p.finally, p.done);
      }
    }
    forall a, b | (a, b) in g
      ensures a in whole.body ==> b in whole.body || b == p.done
      ensures b in whole.body && a !in whole.body ==> a == s.key
    {
      TryPartsEntered(steps, graph, s, a, b);
    }
  }

  lemma DoneOutside(steps: seq<Step>, graph: GraphDef, s: Step)
    requires Accepted(steps, graph) && s in steps && s.kind == TRY_CATCH
    ensures PartsOf(s, graph).done !in TryBody(s, graph).body && PartsOf(s, graph).done !in TryCaught(s, graph).body
  {
    var p, g := PartsOf(s, graph), ArcsIn(graph);
    TryIsComplete(steps, graph, s);
    TryPartsDisjoint(steps, graph, s);
    TryPartsEntered(steps, graph, s, s.key, p.done);
    assert [p.body, p.caught, p.finally, p.done][0] != [p.body, p.caught, p.finally, p.done][3];
    assert [p.body, p.caught, p.finally, p.done][1] != [p.body, p.caught, p.finally, p.done][3];
  }

  /**
   The TRY step dominates every step of its parts and Done post-dominates it; Finally post-dominates Body and Catch.
   */
  lemma TryDominatesParts(steps: seq<Step>, graph: GraphDef, s: Step, x: string)
    requires Accepted(steps, graph) && s in steps && s.kind == TRY_CATCH && x in TryWhole(s, graph).body
    ensures Dominates(ArcsIn(graph), EntryOf(graph), s.key, x)
    ensures PostDominates(ArcsIn(graph), PartsOf(s, graph).done, x)
    ensures x !in TryFinally(s, graph) ==> PostDominates(ArcsIn(graph), PartsOf(s, graph).finally, x)
    ensures EntryOf(graph) !in TryWhole(s, graph).body
  {
    TryIsControlled(steps, graph, s);
    TryPartsControlled(steps, graph, s);
    HeaderDominates(ArcsIn(graph), EntryOf(graph), TryWhole(s, graph), x);
    ExitPostDominates(ArcsIn(graph), EntryOf(graph), TryWhole(s, graph), x);
    EntryOutside(ArcsIn(graph), EntryOf(graph), TryWhole(s, graph));
    if x in TryBody(s, graph).body {
      ExitPostDominates(ArcsIn(graph), EntryOf(graph), TryBody(s, graph), x);
    } else if x in TryCaught(s, graph).body {
      ExitPostDominates(ArcsIn(graph), EntryOf(graph), TryCaught(s, graph), x);
    }
  }

  /**
   A run that enters Body (or Catch) shows the TRY step, then that part alone, then the Finally
   entry, then Finally alone, then Done; and it has no other step of the TRY_CATCH.
   */
  lemma TryRunsInOrder(steps: seq<Step>, graph: GraphDef, s: Step, part: Region, p: seq<string>, i: int)
    returns (j: int, m: int, k: int)
    requires Accepted(steps, graph) && s in steps && s.kind == TRY_CATCH
    requires part == TryBody(s, graph) || part == TryCaught(s, graph)
    requires Run(ArcsIn(graph), EntryOf(graph), p) && 0 <= i < |p| && p[i] in part.body
    ensures j < i < m < k && OneBlock(p, TryWhole(s, graph), j, k) && OneBlock(p, part, j, m)
    ensures p[m] == PartsOf(s, graph).finally && forall x | m <= x < k :: p[x] in TryFinally(s, graph)
  {
    TryIsControlled(steps, graph, s);
    TryPartsControlled(steps, graph, s);
    FinallyEntryInside(steps, graph, s);
    TryPartsDisjoint(steps, graph, s);
    j, k := RunHasOneBlock(ArcsIn(graph), EntryOf(graph), TryWhole(s, graph), p, i);
    var j';
    j', m := RunHasOneBlock(ArcsIn(graph), EntryOf(graph), part, p, i);
    AcyclicPathDistinct(ArcsIn(graph), p);
    assert j' == j;
    forall x | m <= x < k
      ensures p[x] in TryFinally(s, graph)
    {
      StaysInFinally(steps, graph, s, p, m, x, k);
    }
  }

  lemma {:induction false} StaysInFinally(steps: seq<Step>, graph: GraphDef, s: Step, p: seq<string>, m: int, x: int,
      k: int)
    requires Accepted(steps, graph) && s in steps && s.kind == TRY_CATCH && IsPath(ArcsIn(graph), p)
    requires 0 <= m <= x < k < |p| && p[m] == PartsOf(s, graph).finally && p[k] == PartsOf(s, graph).done
    ensures p[x] in TryFinally(s, graph)
    decreases x
  {
    FinallyEntryInside(steps, graph, s);
    AcyclicPathDistinct(ArcsIn(graph), p);
    if x > m {
      StaysInFinally(steps, graph, s, p, m, x - 1, k);
      assert (p[x - 1], p[x]) in ArcsIn(graph);
    }
  }

  // ----- any two control steps

  ghost function ControlRegion(s: Step, graph: GraphDef): Region {
    if s.kind == FOR_EACH then LoopBody(s, graph) else TryWhole(s, graph)
  }

  predicate IsControl(s: Step) {
    s.kind == FOR_EACH || s.kind == TRY_CATCH
  }

  lemma ControlIsControlled(steps: seq<Step>, graph: GraphDef, s: Step)
    requires Accepted(steps, graph) && s in steps && IsControl(s)
    ensures Controlled(ArcsIn(graph), EntryOf(graph), ControlRegion(s, graph))
    ensures AllReached(ArcsIn(graph), EntryOf(graph), ControlRegion(s, graph))
    ensures forall k | k in ControlRegion(s, graph).body :: KindOf(steps, k) != Some(s.kind)
  {
    if s.kind == FOR_EACH {
      LoopIsControlled(steps, graph, s);
    } else {
      TryIsControlled(steps, graph, s);
      TryPartsDisjoint(steps, graph, s);
    }
    StepsAreReached(steps, graph, ControlRegion(s, graph));
  }

  /** The regions of an accepted graph are nested or disjoint; those of the same kind are disjoint. */
  lemma RegionsAreLaminar(steps: seq<Step>, graph: GraphDef, s: Step, t: Step)
    requires Accepted(steps, graph) && s in steps && t in steps && s != t && IsControl(s) && IsControl(t)
    ensures var r, q := ControlRegion(s, graph).body, ControlRegion(t, graph).body;
      && (r !! q || r <= q || q <= r)
      && (s.kind == t.kind ==> r !! q)
  {
    var g, entry := ArcsIn(graph), EntryOf(graph);
    ControlIsControlled(steps, graph, s);
    ControlIsControlled(steps, graph, t);
    KindOfKey(steps, s);
    KindOfKey(steps, t);
    var i :| 0 <= i < |steps| && steps[i] == s;
    var j :| 0 <= j < |steps| && steps[j] == t;
    assert s.key != t.key;
    Laminar(g, entry, ControlRegion(s, graph), ControlRegion(t, graph));
    if s.kind == t.kind {
      OutsideHeadersDisjoint(g, entry, ControlRegion(s, graph), ControlRegion(t, graph));
    }
  }
}
