/** Workflow graphs (schema version 2) and what it means for one to be accepted. */
module GraphModel {
  import opened Text
  import opened Digraph
  import opened Traversal

  /** A field of an edge or graph as stored: any JSON value, of which only strings matter. */
  datatype Value = Missing | Str(s: string) | Other(shown: string)

  datatype Edge = Edge(from: Value, to: Value, kind: Value, caseKey: Value)

  datatype Issue = Issue(code: string, stepKey: Option<string>)

  /** `ownIssues` are those the checks of the step's own configuration report. */
  datatype Step = Step(id: Option<string>, key: string, kind: string, ownIssues: seq<Issue>)

  /** `edges` is `None` when the stored value is not an array. */
  datatype GraphDef = GraphDef(entryStepKey: Value, edges: Option<seq<Edge>>)

  const EDGE_KINDS := {"next", "if_true", "if_false", "switch_case", "switch_default", "for_each_body", "for_each_done",
                       "try_body", "try_catch", "try_finally", "try_done",
                       "approval_approved", "approval_rejected", "approval_expired"}
  const FOR_EACH := "for_each"
  const TRY_CATCH := "try_catch"
  const CONDITIONAL := "conditional"

  function StringValue(v: Value): Option<string> {
    if v.Str? && Trim(v.s) != "" then Some(Trim(v.s)) else None
  }

  /** JavaScript's `String(value ?? "")`. */
  function Shown(v: Value): string {
    match v
    case Missing => ""
    case Str(s) => s
    case Other(shown) => shown
  }

  function EdgeId(e: Edge): string {
    Shown(e.from) + ":" + Shown(e.kind) + ":" + Shown(e.caseKey) + "->" + Shown(e.to)
  }

  function HandleOf(e: Edge): string {
    match StringValue(e.kind)
    case None => "next"
    case Some(kind) =>
      if kind == "if_true" then "true"
      else if kind == "if_false" then "false"
      else if kind == "switch_default" then "default"
      else if kind == "switch_case"
      then "case:" + (if StringValue(e.caseKey).Some? then StringValue(e.caseKey).value else "")
      else if kind == "for_each_body" || kind == "try_body" then "body"
      else if kind == "for_each_done" || kind == "try_done" then "done"
      else if kind == "try_catch" then "catch"
      else if kind == "try_finally" then "finally"
      else if kind == "approval_approved" then "approved"
      else if kind == "approval_rejected" then "rejected"
      else if kind == "approval_expired" then "expired"
      else "next"
  }

  predicate Joined(e: Edge) {
    StringValue(e.from).Some? && StringValue(e.to).Some?
  }

  function From(e: Edge): string
    requires Joined(e)
  {
    StringValue(e.from).value
  }

  function To(e: Edge): string
    requires Joined(e)
  {
    StringValue(e.to).value
  }

  /** The arcs of a list of edges: those with both ends given. */
  function EdgeArcs(edges: seq<Edge>): Arcs {
    set e | e in edges && Joined(e) :: (From(e), To(e))
  }

  function Outgoing(key: string, edges: seq<Edge>): (out: seq<Edge>)
    ensures forall e :: e in out <==> e in edges && StringValue(e.from) == Some(key)
  {
    if edges == [] then []
    else (if StringValue(edges[0].from) == Some(key) then [edges[0]] else []) + Outgoing(key, edges[1..])
  }

  function OfKind(edges: seq<Edge>, kind: string): (found: seq<Edge>)
    ensures forall e :: e in found <==> e in edges && StringValue(e.kind) == Some(kind)
  {
    if edges == [] then []
    else (if StringValue(edges[0].kind) == Some(kind) then [edges[0]] else []) + OfKind(edges[1..], kind)
  }

  function Keys(steps: seq<Step>): seq<string> {
    seq(|steps|, i requires 0 <= i < |steps| => steps[i].key)
  }

  function KindOf(steps: seq<Step>, key: string): Option<string> {
    if steps == [] then None
    else if steps[0].key == key then Some(steps[0].kind)
    else KindOf(steps[1..], key)
  }

  /** The targets of a step's outgoing edges, in order. */
  function Targets(key: string, edges: seq<Edge>): seq<string> {
    if edges == [] then [] else
    var e := edges[|edges| - 1];
    Targets(key, edges[..|edges| - 1]) + (if Joined(e) && From(e) == key then [To(e)] else [])
  }

  lemma {:induction false} TargetsAreArcs(key: string, t: string, edges: seq<Edge>)
    ensures t in Targets(key, edges) <==> (key, t) in EdgeArcs(edges)
  {
    if edges != [] {
      var rest, e := edges[..|edges| - 1], edges[|edges| - 1];
      TargetsAreArcs(key, t, rest);
      assert edges == rest + [e];
      assert (key, t) in EdgeArcs(edges) <==> (key, t) in EdgeArcs(rest) || (Joined(e) && From(e) == key && To(e) == t);
    }
  }

  /** The adjacency map lists the targets of every step, in order. */
  method AdjacencyMap(edges: seq<Edge>) returns (next: Adjacency)
    ensures forall key :: Lookup(next, key) == Targets(key, edges)
    ensures ArcsOf(next) == EdgeArcs(edges)
  {
    next := map[];
    for i := 0 to |edges|
      invariant forall key :: Lookup(next, key) == Targets(key, edges[..i])
    {
      var e := edges[i];
      assert edges[..i + 1][..i] == edges[..i];
      if Joined(e) {
        next := next[From(e) := Lookup(next, From(e)) + [To(e)]];
      }
    }
    assert edges[..|edges|] == edges;
    AdjacencyArcs(edges, next);
  }

  lemma AdjacencyArcs(edges: seq<Edge>, next: Adjacency)
    requires forall key :: Lookup(next, key) == Targets(key, edges)
    ensures ArcsOf(next) == EdgeArcs(edges)
  {
    forall a, b
      ensures (a, b) in ArcsOf(next) <==> (a, b) in EdgeArcs(edges)
    {
      TargetsAreArcs(a, b, edges);
      assert (a, b) in ArcsOf(next) <==> b in Lookup(next, a);
    }
  }

  // ----- the declarative meaning of an accepted graph

  ghost predicate DistinctKeys(steps: seq<Step>) {
    forall i, j | 0 <= i < j < |steps| :: steps[i].key != steps[j].key
  }

  predicate HasId(s: Step) {
    s.id.Some? && s.id.value != ""
  }

  ghost predicate DistinctIds(steps: seq<Step>) {
    forall i, j | 0 <= i < j < |steps| && steps[i].id.Some? && steps[i].id.value != "" :: steps[i].id != steps[j].id
  }

  predicate ValidEdge(e: Edge, keys: set<string>) {
    && Joined(e) && From(e) in keys && To(e) in keys
    && StringValue(e.kind).Some? && StringValue(e.kind).value in EDGE_KINDS
  }

  function HandleKey(e: Edge): string
    requires Joined(e)
  {
    From(e) + ":" + HandleOf(e)
  }

  /** The edge is valid, not a self loop, and repeats no earlier edge and no earlier output. */
  ghost predicate EdgeOkAt(edges: seq<Edge>, keys: set<string>, i: int)
    requires 0 <= i < |edges|
  {
    && ValidEdge(edges[i], keys) && From(edges[i]) != To(edges[i])
    && (forall j | 0 <= j < i :: EdgeId(edges[j]) != EdgeId(edges[i]))
    && (forall j | 0 <= j < i && ValidEdge(edges[j], keys) :: HandleKey(edges[j]) != HandleKey(edges[i]))
  }

  ghost predicate EdgesOk(edges: seq<Edge>, keys: set<string>) {
    forall i | 0 <= i < |edges| :: EdgeOkAt(edges, keys, i)
  }

  predicate KindIn(e: Edge, kinds: set<string>) {
    StringValue(e.kind).Some? && StringValue(e.kind).value in kinds
  }

  ghost predicate Resolved(v: Value, keys: set<string>) {
    StringValue(v).Some? && StringValue(v).value in keys
  }

  /** A FOR_EACH body: what lies between the body entry and Done. */
  ghost predicate LoopRegion(loop: string, body: string, done: string, steps: seq<Step>, edges: seq<Edge>) {
    var g := EdgeArcs(edges);
    && body != done
    && !InRegion(g, body, Some(done), loop)
    && (forall k | InRegion(g, body, Some(done), k) :: KindOf(steps, k) != Some(FOR_EACH) && Reaches(g, k, done))
    && (forall e | e in edges && Joined(e) && InRegion(g, body, Some(done), To(e)) &&
        !InRegion(g, body, Some(done), From(e)) ::
          From(e) == loop && To(e) == body && StringValue(e.kind) == Some("for_each_body"))
  }

  ghost predicate LoopOk(step: Step, steps: seq<Step>, keys: set<string>, edges: seq<Edge>) {
    var out := Outgoing(step.key, edges);
    var bodies, dones := OfKind(out, "for_each_body"), OfKind(out, "for_each_done");
    && |bodies| == 1 && |dones| == 1
    && (forall e | e in out :: KindIn(e, {"for_each_body", "for_each_done"}))
    && (Resolved(bodies[0].to, keys) && Resolved(dones[0].to, keys) ==>
          LoopRegion(step.key, StringValue(bodies[0].to).value, StringValue(dones[0].to).value, steps, edges))
  }

  /** The steps of one part of a TRY_CATCH: what lies between its entry and its boundary. */
  ghost predicate PartOk(entry: string, boundary: string, steps: seq<Step>, edges: seq<Edge>) {
    var g := EdgeArcs(edges);
    forall k | InRegion(g, entry, Some(boundary), k) :: KindOf(steps, k) != Some(TRY_CATCH) && Reaches(g, k, boundary)
  }

  /** The only edge into a part from outside comes from the TRY step. */
  ghost predicate EnteredBy(try: string, entry: string, boundary: string, kind: string, e: Edge, g: Arcs)
    requires Joined(e)
  {
    InRegion(g, entry, Some(boundary), To(e)) && !InRegion(g, entry, Some(boundary), From(e)) ==>
      From(e) == try && To(e) == entry && StringValue(e.kind) == Some(kind)
  }

  datatype TryParts = TryParts(body: string, caught: string, finally: string, done: string)

  ghost predicate Converges(p: TryParts, e: Edge, g: Arcs)
    requires Joined(e)
  {
    To(e) == p.finally &&
        (InRegion(g, p.body, Some(p.finally), From(e)) || InRegion(g, p.caught, Some(p.finally), From(e)))
  }

  ghost predicate TryEntries(try: string, p: TryParts, edges: seq<Edge>) {
    var g := EdgeArcs(edges);
    forall e | e in edges && Joined(e) ::
      && EnteredBy(try, p.body, p.finally, "try_body", e, g)
      && EnteredBy(try, p.caught, p.finally, "try_catch", e, g)
      && (Converges(p, e, g) || EnteredBy(try, p.finally, p.done, "try_finally", e, g))
  }

  ghost predicate TryRegions(try: string, p: TryParts, steps: seq<Step>, edges: seq<Edge>) {
    var g := EdgeArcs(edges);
    && Distinct([p.body, p.caught, p.finally, p.done])
    && PartOk(p.body, p.finally, steps, edges)
    && PartOk(p.caught, p.finally, steps, edges)
    && PartOk(p.finally, p.done, steps, edges)
    && (forall k :: !(InRegion(g, p.body, Some(p.finally), k) && InRegion(g, p.caught, Some(p.finally), k)))
    && (forall k :: !(InRegion(g, p.body, Some(p.finally), k) && InRegion(g, p.finally, Some(p.done), k)))
    && (forall k :: !(InRegion(g, p.caught, Some(p.finally), k) && InRegion(g, p.finally, Some(p.done), k)))
    && TryEntries(try, p, edges)
  }

  const TRY_KINDS := {"try_body", "try_catch", "try_finally", "try_done"}

  function FirstTarget(found: seq<Edge>): Option<string> {
    if found == [] then None else StringValue(found[0].to)
  }

  ghost predicate TryOk(step: Step, steps: seq<Step>, keys: set<string>, edges: seq<Edge>) {
    var out := Outgoing(step.key, edges);
    var body, caught := OfKind(out, "try_body"), OfKind(out, "try_catch");
    var finally, done := OfKind(out, "try_finally"), OfKind(out, "try_done");
    && |body| == 1 && |caught| == 1 && |finally| <= 1 && |done| == 1
    && (forall e | e in out :: KindIn(e, TRY_KINDS))
    && (Resolved(body[0].to, keys) && Resolved(caught[0].to, keys) && Resolved(done[0].to, keys) ==>
          && FirstTarget(finally).Some?
          && TryRegions(step.key, TryParts(StringValue(body[0].to).value, StringValue(caught[0].to).value,
                                           FirstTarget(finally).value, StringValue(done[0].to).value), steps, edges))
  }

  ghost predicate StepOk(step: Step, steps: seq<Step>, keys: set<string>, edges: seq<Edge>) {
    && step.ownIssues == [] && step.kind != CONDITIONAL
    && (step.kind == FOR_EACH ==> LoopOk(step, steps, keys, edges))
    && (step.kind == TRY_CATCH ==> TryOk(step, steps, keys, edges))
  }

  function EdgesOf(graph: GraphDef): seq<Edge> {
    if graph.edges.Some? then graph.edges.value else []
  }

  ghost predicate Accepted(steps: seq<Step>, graph: GraphDef) {
    var keys, edges := Elems(Keys(steps)), EdgesOf(graph);
    && DistinctKeys(steps) && DistinctIds(steps) && steps != []
    && Resolved(graph.entryStepKey, keys)
    && EdgesOk(edges, keys)
    && !HasCycle(EdgeArcs(edges))
    && (forall k | k in keys :: Reaches(EdgeArcs(edges), StringValue(graph.entryStepKey).value, k))
    && (forall s | s in steps :: StepOk(s, steps, keys, edges))
  }
}
