/** What the references between the steps of a validated workflow guarantee. */
module ReferenceTheorems {
  import opened Text
  import opened Digraph
  import opened GraphModel
  import opened GraphTheorems
  import opened StepScope
  import opened StepExpressions
  import J = Json
  import T = Templates
  import V = ExpressionValidator
  import E = ExpressionTheorems
  import R = Resolver
  import L = ResolverLaws

  predicate NamesStep(path: T.Path, k: string) {
    |path.segments| > 1 && path.segments[0] == "steps" && path.segments[1] == k
  }

  /** Some expression of the configuration reads `steps.k`. */
  ghost predicate Refers(config: J.Json, k: string) {
    exists path :: L.Mentions(config, path, T.DEFAULTS) && NamesStep(path, k)
  }

  /** A reference is in the scope of its step. */
  lemma ReferenceInScope(steps: seq<Configured>, graph: Option<GraphDef>, i: nat, k: string)
    requires Validated(steps, graph) && i < |steps| && Refers(steps[i].config, k)
    ensures k in Scope(steps, graph, i) && k != steps[i].step.key
  {
    var path :| L.Mentions(steps[i].config, path, T.DEFAULTS) && NamesStep(path, k);
    E.MentionedIsAllowed(steps[i].config, path, ContextOf(steps, graph, i));
  }

  /** Without a graph, a step refers only to steps listed before it. */
  lemma ReferenceIsEarlier(steps: seq<Configured>, i: nat, k: string) returns (j: nat)
    requires Validated(steps, None) && i < |steps| && Refers(steps[i].config, k)
    ensures j < i && steps[j].step.key == k
  {
    ReferenceInScope(steps, None, i, k);
    var keys := Keys(StepsOf(steps)[..i]);
    assert k in keys;
    j :| 0 <= j < |keys| && keys[j] == k;
  }

  /** In an accepted graph, a step refers only to proper ancestors, and these are steps. */
  lemma ReferenceIsAncestor(steps: seq<Configured>, graph: GraphDef, i: nat, k: string)
    requires Accepted(StepsOf(steps), graph) && Validated(steps, Some(graph)) && i < |steps| &&
      Refers(steps[i].config, k)
    ensures k != steps[i].step.key && Reaches(ArcsIn(graph), k, steps[i].step.key) && k in Keys(StepsOf(steps))
  {
    ReferenceInScope(steps, Some(graph), i, k);
    BeforeIsAncestor(StepsOf(steps), graph, steps[i].step.key, k);
  }

  lemma BeforeIsAncestor(steps: seq<Step>, graph: GraphDef, key: string, k: string)
    requires Accepted(steps, graph) && Before(steps, graph, key, k)
    ensures k != key && Reaches(ArcsIn(graph), k, key) && k in Keys(steps)
  {
    if graph.edges.None? {
      NothingBefore(steps, graph, key, k);
    } else {
      var p :| PathBetween(ArcsIn(graph), p, k, key);
      assert (p[0], p[1]) in ArcsIn(graph);
      NodesAreSteps(steps, graph, p[0], p[1]);
    }
  }

  lemma NoArcsNoPath(a: string, b: string)
    requires Reaches({}, a, b)
    ensures a == b
  {
    var p :| PathBetween({}, p, a, b);
    if |p| > 1 { RankFalls({}, (_: string) => 0, p, 1); }
  }

  /** An accepted graph whose edges are not a list has one step. */
  lemma SingleStep(steps: seq<Step>, graph: GraphDef)
    requires Accepted(steps, graph) && graph.edges.None?
    ensures |steps| == 1
  {
    forall s | s in steps
      ensures s.key == EntryOf(graph)
    {
      StepIsReached(steps, graph, s);
      assert ArcsIn(graph) == {};
      NoArcsNoPath(EntryOf(graph), s.key);
    }
    assert |steps| == 1 || steps[0].key != steps[1].key;
  }

  lemma NothingBefore(steps: seq<Step>, graph: GraphDef, key: string, k: string)
    requires Accepted(steps, graph) && graph.edges.None?
    ensures !Before(steps, graph, key, k)
  {
    SingleStep(steps, graph);
    assert Keys(steps[..0]) == [];
  }

  /** In every run that has both, the step referred to comes first. */
  lemma ReferenceRunsFirst(steps: seq<Configured>, graph: GraphDef, i: nat, k: string, p: seq<string>, a: int, b: int)
    requires Accepted(StepsOf(steps), graph) && Validated(steps, Some(graph)) && i < |steps| &&
      Refers(steps[i].config, k)
    requires IsPath(ArcsIn(graph), p) && 0 <= a < |p| && 0 <= b < |p| && p[a] == k && p[b] == steps[i].step.key
    ensures a < b
  {
    ReferenceIsAncestor(steps, graph, i, k);
    if b < a {
      ReachesAlong(ArcsIn(graph), p, b, a);
      CycleBetween(ArcsIn(graph), k, steps[i].step.key);
    }
  }

  // ----- no circle of references

  /** An arc from each step to each step it refers to. */
  ghost function References(steps: seq<Configured>): Arcs {
    set i, j | 0 <= i < |steps| && 0 <= j < |steps| && Refers(steps[i].config, steps[j].step.key) ::
        (steps[i].step.key, steps[j].step.key)
  }

  lemma ArcIsAncestor(steps: seq<Configured>, graph: GraphDef, a: string, b: string)
    requires Accepted(StepsOf(steps), graph) && Validated(steps, Some(graph)) && (a, b) in References(steps)
    ensures a != b && Reaches(ArcsIn(graph), b, a)
  {
    var i, j :| 0 <= i < |steps| && 0 <= j < |steps| && Refers(steps[i].config, steps[j].step.key) &&
        (a, b) == (steps[i].step.key, steps[j].step.key);
    ReferenceIsAncestor(steps, graph, i, b);
  }

  lemma {:induction false} ChainIsAncestor(steps: seq<Configured>, graph: GraphDef, p: seq<string>)
    requires Accepted(StepsOf(steps), graph) && Validated(steps, Some(graph)) && IsPath(References(steps), p)
    ensures Reaches(ArcsIn(graph), p[|p| - 1], p[0])
  {
    if |p| == 1 {
      ReachesSelf(ArcsIn(graph), p[0]);
    } else {
      SlicePath(References(steps), p, 1, |p| - 1);
      assert p[1..|p| - 1 + 1] == p[1..];
      ChainIsAncestor(steps, graph, p[1..]);
      ArcIsAncestor(steps, graph, p[0], p[1]);
      ReachesTransitive(ArcsIn(graph), p[|p| - 1], p[1], p[0]);
    }
  }

  /** References between the steps never form a circle. */
  lemma ReferencesAreAcyclic(steps: seq<Configured>, graph: GraphDef)
    requires Accepted(StepsOf(steps), graph) && Validated(steps, Some(graph))
    ensures !HasCycle(References(steps))
  {
    forall p | IsPath(References(steps), p) && |p| > 1
      ensures p[0] != p[|p| - 1]
    {
      ArcIsAncestor(steps, graph, p[0], p[1]);
      SlicePath(References(steps), p, 1, |p| - 1);
      ChainIsAncestor(steps, graph, p[1..|p| - 1 + 1]);
      if p[0] == p[|p| - 1] { CycleBetween(ArcsIn(graph), p[0], p[1]); }
    }
  }

  // ----- regions keep their steps to themselves

  lemma LoopHoldsBody(steps: seq<Step>, graph: GraphDef, s: Step, k: string)
    requires Accepted(steps, graph) && s in steps && s.kind == FOR_EACH
    ensures LoopHolds(s, graph, k) <==> k in LoopBody(s, graph).body
  {
    assert StepOk(s, steps, Elems(Keys(steps)), EdgesOf(graph));
    TargetIsArc(steps, graph, s.key, "for_each_body");
    TargetIsArc(steps, graph, s.key, "for_each_done");
    var body, done := TargetOf(s.key, "for_each_body", EdgesOf(graph)),
        TargetOf(s.key, "for_each_done", EdgesOf(graph));
    assert LoopRegion(s.key, body, done, steps, EdgesOf(graph));
    RegionSetExact(ArcsIn(graph), body, done, k);
  }

  lemma TryCounts(steps: seq<Step>, graph: GraphDef, s: Step)
    requires Accepted(steps, graph) && s in steps && s.kind == TRY_CATCH
    ensures var out := Outgoing(s.key, EdgesOf(graph));
      |OfKind(out, "try_body")| == |OfKind(out, "try_catch")| == |OfKind(out, "try_finally")| ==
          |OfKind(out, "try_done")| == 1
  {
    assert StepOk(s, steps, Elems(Keys(steps)), EdgesOf(graph));
    TryIsComplete(steps, graph, s);
  }

  ghost predicate HasTarget(s: Step, graph: GraphDef, kind: string) {
    FirstTarget(OfKind(Outgoing(s.key, EdgesOf(graph)), kind)) == Some(TargetOf(s.key, kind, EdgesOf(graph)))
  }

  lemma OneTarget(steps: seq<Step>, graph: GraphDef, s: Step, kind: string)
    requires Accepted(steps, graph) && |OfKind(Outgoing(s.key, EdgesOf(graph)), kind)| == 1
    ensures HasTarget(s, graph, kind)
  {
    TargetIsArc(steps, graph, s.key, kind);
  }

  lemma HoldsParts(s: Step, graph: GraphDef, k: string)
    requires s.kind == TRY_CATCH && HasTarget(s, graph, "try_body") && HasTarget(s, graph, "try_catch")
    requires HasTarget(s, graph, "try_finally") && HasTarget(s, graph, "try_done")
    ensures CatchHolds(s, graph, k) <==> k in TryCaught(s, graph).body
    ensures FinallyHolds(s, graph, k) <==> k in TryFinally(s, graph)
  {
    TryMembers(s, graph, k);
  }

  lemma TryHoldsParts(steps: seq<Step>, graph: GraphDef, s: Step, k: string)
    requires Accepted(steps, graph) && s in steps && s.kind == TRY_CATCH
    ensures CatchHolds(s, graph, k) <==> k in TryCaught(s, graph).body
    ensures FinallyHolds(s, graph, k) <==> k in TryFinally(s, graph)
  {
    TryCounts(steps, graph, s);
    OneTarget(steps, graph, s, "try_body");
    OneTarget(steps, graph, s, "try_catch");
    OneTarget(steps, graph, s, "try_finally");
    OneTarget(steps, graph, s, "try_done");
    HoldsParts(s, graph, k);
  }

  /** `k` lies in a loop body, a Catch or a Finally of the step, and `key` does not lie in the same. */
  ghost predicate Private(s: Step, graph: GraphDef, key: string, k: string) {
    || (s.kind == FOR_EACH && k in LoopBody(s, graph).body && key !in LoopBody(s, graph).body)
    || (s.kind == TRY_CATCH && k in TryCaught(s, graph).body && key !in TryCaught(s, graph).body)
    || (s.kind == TRY_CATCH && k in TryFinally(s, graph) && key !in TryFinally(s, graph))
  }

  lemma OpenExactly(steps: seq<Step>, graph: GraphDef, s: Step, key: string, k: string)
    requires Accepted(steps, graph) && s in steps
    ensures !Private(s, graph, key, k) <==>
      && (LoopHolds(s, graph, k) ==> LoopHolds(s, graph, key))
      && (CatchHolds(s, graph, k) ==> CatchHolds(s, graph, key))
      && (FinallyHolds(s, graph, k) ==> FinallyHolds(s, graph, key))
  {
    KindsApart();
    if s.kind == FOR_EACH {
      LoopHoldsBody(steps, graph, s, k);
      LoopHoldsBody(steps, graph, s, key);
    } else if s.kind == TRY_CATCH {
      TryHoldsParts(steps, graph, s, k);
      TryHoldsParts(steps, graph, s, key);
    }
  }

  lemma KindsApart()
    ensures FOR_EACH != TRY_CATCH
  {
    assert FOR_EACH[0] == 'f' && TRY_CATCH[0] == 't';
  }

  lemma BeforeExactly(steps: seq<Step>, graph: GraphDef, key: string, k: string)
    requires Accepted(steps, graph)
    ensures Before(steps, graph, key, k) <==> k != key && Reaches(ArcsIn(graph), k, key)
  {
    if graph.edges.None? {
      NothingBefore(steps, graph, key, k);
      assert ArcsIn(graph) == {};
      if Reaches(ArcsIn(graph), k, key) { NoArcsNoPath(k, key); }
    }
  }

  /** In an accepted graph the scope of a step is its proper ancestors, less those private to other regions. */
  lemma ScopeExactly(steps: seq<Configured>, graph: GraphDef, i: nat, k: string)
    requires Accepted(StepsOf(steps), graph) && i < |steps|
    ensures var key := steps[i].step.key;
      k in Scope(steps, Some(graph), i) <==>
        && k != key && Reaches(ArcsIn(graph), k, key)
        && forall s | s in StepsOf(steps) :: !Private(s, graph, key, k)
  {
    var all, key := StepsOf(steps), steps[i].step.key;
    BeforeExactly(all, graph, key, k);
    forall s | s in all { OpenExactly(all, graph, s, key, k); }
    if Visible(all, graph, key, k) { VisibleIsKnown(all, graph, key, k); }
  }

  /** Without a graph, a step sees the steps listed before it, and only transforms have locals. */
  lemma ListScopeExactly(steps: seq<Configured>, i: nat, k: string)
    requires i < |steps|
    ensures k in Scope(steps, None, i) <==> exists j | 0 <= j < i :: steps[j].step.key == k
    ensures k in Locals(steps, None, i) <==> k in {"item", "index"} && steps[i].step.kind == "transform"
  {
    var keys := Keys(StepsOf(steps)[..i]);
    assert forall j | 0 <= j < i :: keys[j] == steps[j].step.key;
    if j :| 0 <= j < i && steps[j].step.key == k { assert keys[j] in keys; }
  }

  ghost predicate InLoop(steps: seq<Step>, graph: GraphDef, key: string) {
    exists s | s in steps :: s.kind == FOR_EACH && key in LoopBody(s, graph).body
  }

  ghost predicate InCatch(steps: seq<Step>, graph: GraphDef, key: string) {
    exists s | s in steps :: s.kind == TRY_CATCH && key in TryCaught(s, graph).body
  }

  lemma InLoopExactly(steps: seq<Step>, graph: GraphDef, key: string)
    requires Accepted(steps, graph)
    ensures InSome(steps, Some(graph), LoopHolds, key) <==> InLoop(steps, graph, key)
  {
    forall s | s in steps
      ensures LoopHolds(s, graph, key) <==> s.kind == FOR_EACH && key in LoopBody(s, graph).body
    {
      if s.kind == FOR_EACH { LoopHoldsBody(steps, graph, s, key); }
    }
  }

  lemma InCatchExactly(steps: seq<Step>, graph: GraphDef, key: string)
    requires Accepted(steps, graph)
    ensures InSome(steps, Some(graph), CatchHolds, key) <==> InCatch(steps, graph, key)
  {
    forall s | s in steps
      ensures CatchHolds(s, graph, key) <==> s.kind == TRY_CATCH && key in TryCaught(s, graph).body
    {
      if s.kind == TRY_CATCH { TryHoldsParts(steps, graph, s, key); }
    }
  }

  lemma LocalsBy(steps: seq<Configured>, graph: GraphDef, i: nat, name: string, loop: bool, caught: bool)
    requires i < |steps|
    requires loop == InSome(StepsOf(steps), Some(graph), LoopHolds, steps[i].step.key)
    requires caught == InSome(StepsOf(steps), Some(graph), CatchHolds, steps[i].step.key)
    ensures name in Locals(steps, Some(graph), i) <==>
      || (name in {"item", "index"} && (steps[i].step.kind == TRANSFORM || loop))
      || (name == "error" && caught)
  {
  }

  /** `item` and `index` are local in transforms and in loop bodies, `error` in a Catch, and nowhere else. */
  lemma LocalsExactly(steps: seq<Configured>, graph: GraphDef, i: nat, name: string)
    requires Accepted(StepsOf(steps), graph) && i < |steps|
    ensures var all, step := StepsOf(steps), steps[i].step;
      name in Locals(steps, Some(graph), i) <==>
        || (name in {"item", "index"} && (step.kind == "transform" || InLoop(all, graph, step.key)))
        || (name == "error" && InCatch(all, graph, step.key))
  {
    var all, key := StepsOf(steps), steps[i].step.key;
    InLoopExactly(all, graph, key);
    InCatchExactly(all, graph, key);
    LocalsBy(steps, graph, i, name, InLoop(all, graph, key), InCatch(all, graph, key));
  }

  /** No step outside a FOR_EACH body refers into it, nor into Catch or Finally from outside of them. */
  lemma RegionsArePrivate(steps: seq<Configured>, graph: GraphDef, i: nat, s: Step, k: string)
    requires Accepted(StepsOf(steps), graph) && Validated(steps, Some(graph)) && i < |steps| &&
      Refers(steps[i].config, k) && s in StepsOf(steps)
    ensures s.kind == FOR_EACH && k in LoopBody(s, graph).body ==> steps[i].step.key in LoopBody(s, graph).body
    ensures s.kind == TRY_CATCH && k in TryCaught(s, graph).body ==> steps[i].step.key in TryCaught(s, graph).body
    ensures s.kind == TRY_CATCH && k in TryFinally(s, graph) ==> steps[i].step.key in TryFinally(s, graph)
  {
    ReferenceInScope(steps, Some(graph), i, k);
    var all, key := StepsOf(steps), steps[i].step.key;
    assert Visible(all, graph, key, k);
    if s.kind == FOR_EACH {
      LoopHoldsBody(all, graph, s, k);
      LoopHoldsBody(all, graph, s, key);
    } else if s.kind == TRY_CATCH {
      TryHoldsParts(all, graph, s, k);
      TryHoldsParts(all, graph, s, key);
    }
  }

  /**
   A configuration resolves alike in any two scopes that agree outside `steps` and on the outputs of the step's proper
   ancestors.
   */
  lemma StepReadsAncestors(steps: seq<Configured>, graph: GraphDef, i: nat, a: J.Json, b: J.Json, mode: R.Mode,
      write: R.Writer)
    requires Accepted(StepsOf(steps), graph) && Validated(steps, Some(graph)) && i < |steps|
    requires forall namespace | namespace != "steps" :: R.Member(a, namespace) == R.Member(b, namespace)
    requires forall k | k != steps[i].step.key && Reaches(ArcsIn(graph), k, steps[i].step.key) ::
      R.Lookup(a, ["steps", k]) == R.Lookup(b, ["steps", k])
    ensures R.ResolveValue(steps[i].config, a, mode, T.DEFAULTS, write) ==
      R.ResolveValue(steps[i].config, b, mode, T.DEFAULTS, write)
  {
    var scope := Scope(steps, Some(graph), i);
    forall k | k in scope
      ensures R.Lookup(a, ["steps", k]) == R.Lookup(b, ["steps", k])
    {
      BeforeIsAncestor(StepsOf(steps), graph, steps[i].step.key, k);
    }
    E.UnavailableIsUnseen(steps[i].config, ContextOf(steps, Some(graph), i), a, b, mode, write);
  }

  lemma OneAllowed(s: string, path: T.Path, context: V.Context)
    requires T.Parse(s, context.options) == T.Ok(T.Describe(s, [T.Expression(path)])) && T.Includes(s, '{')
    requires path.segments != []
    ensures E.AllowedString(s, context) <==> E.Allowed(path.segments, context)
  {
    assert T.Expression(path) in [T.Expression(path)];
  }

  lemma PathAccepted(path: T.Path, context: V.Context)
    requires context.options == T.DEFAULTS && T.PathOf(path.raw, T.DEFAULTS) == T.Ok(path) && path.segments != []
    ensures E.Accepted(J.Str("{{" + path.raw + "}}"), context) <==> E.Allowed(path.segments, context)
  {
    var s := "{{" + path.raw + "}}";
    L.OneParses(path, T.DEFAULTS);
    assert T.DoubleAt(s, '{', 0);
    OneAllowed(s, path, context);
  }

  /** A step may read the output of every step in its scope, and no other. */
  lemma OutputIsReadable(steps: seq<Configured>, graph: Option<GraphDef>, i: nat, path: T.Path, k: string)
    requires i < |steps| && T.PathOf(path.raw, T.DEFAULTS) == T.Ok(path) && path.segments == ["steps", k, "output"]
    ensures E.Accepted(J.Str("{{" + path.raw + "}}"), ContextOf(steps, graph, i)) <==>
      k in Scope(steps, graph, i) && k != steps[i].step.key
  {
    var context := ContextOf(steps, graph, i);
    PathAccepted(path, context);
    E.StepAllowed(path.segments, k, context);
  }

  /** Every step may read metadata, and of a connection its id, name and type. */
  lemma SharedIsReadable(steps: seq<Configured>, graph: Option<GraphDef>, i: nat, path: T.Path)
    requires i < |steps| && T.PathOf(path.raw, T.DEFAULTS) == T.Ok(path) && path.segments != []
    ensures path.segments[0] == "metadata" ==> E.Accepted(J.Str("{{" + path.raw + "}}"), ContextOf(steps, graph, i))
    ensures path.segments[0] == "connection" ==>
      (E.Accepted(J.Str("{{" + path.raw + "}}"), ContextOf(steps, graph, i)) <==>
        |path.segments| == 2 && path.segments[1] in {"id", "name", "type"})
  {
    PathAccepted(path, ContextOf(steps, graph, i));
    assert "metadata"[0] == 'm' && "connection"[0] == 'c';
    assert "metadata" in V.NAMESPACES && "connection" in V.NAMESPACES;
  }
}
