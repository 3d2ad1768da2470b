/** Which laid out workflows the validator accepts. */
module FlowGraphs {
  import opened Text
  import opened Digraph
  import opened GraphModel
  import opened GraphOutputs
  import opened Flows
  import opened FlowRegions
  import opened FlowSteps

  // ----- no edge or output twice

  lemma LinkIdTells(d: Edge, e: Edge)
    requires GoodLink(d) && GoodLink(e) && EdgeId(d) == EdgeId(e)
    ensures d.from == e.from && d.kind == e.kind
  {
    LinkKindIsName(d.kind.s);
    LinkKindIsName(e.kind.s);
    IdTells(d, e);
  }

  /** With colons in keys two different edges may have one identifier. */
  lemma ColonsClash(x: string, y: string, z: string)
    ensures EdgeId(Link(x, y + ":next:->" + z, "next")) == EdgeId(Link(x + ":next:->" + y, z, "next"))
  {
    assert ":next:->" == ":" + "next" + ":" + "" + "->";
    assert EdgeId(Link(x, y + ":next:->" + z, "next")) == x + ":next:->" + y + ":next:->" + z;
    assert EdgeId(Link(x + ":next:->" + y, z, "next")) == x + ":next:->" + y + ":next:->" + z;
  }

  lemma KeyTells(d: Edge, e: Edge)
    requires GoodLink(d) && GoodLink(e) && Joined(d) && Joined(e) && HandleKey(d) == HandleKey(e)
    ensures d.from == e.from && HandleOf(d) == HandleOf(e)
  {
    LinkReads(d);
    LinkReads(e);
    ColonSplits(d.from.s, HandleOf(d), e.from.s, HandleOf(e));
  }

  lemma HandleIsOfKind(d: Edge, e: Edge)
    requires d.kind == e.kind && d.caseKey == e.caseKey
    ensures HandleOf(d) == HandleOf(e)
  {
  }

  /** No step has an output twice. */
  ghost predicate OneEach(edges: seq<Edge>) {
    forall i, j | 0 <= i < j < |edges| && edges[i].from == edges[j].from :: HandleOf(edges[i]) != HandleOf(edges[j])
  }

  lemma OneEachOk(edges: seq<Edge>, keys: set<string>)
    requires OneEach(edges) && forall e | e in edges ::
      GoodLink(e) && e.from.s in keys && e.to.s in keys && e.from.s != e.to.s
    ensures EdgesOk(edges, keys) && AllDiffer(edges)
  {
    forall i | 0 <= i < |edges|
      ensures ValidEdge(edges[i], keys) && From(edges[i]) != To(edges[i])
    {
      assert edges[i] in edges;
      LinkReads(edges[i]);
      KindsAreEdgeKinds(edges[i].kind.s);
    }
    forall i, j | 0 <= i < j < |edges|
      ensures Joined(edges[i]) && Joined(edges[j])
      ensures EdgeId(edges[i]) != EdgeId(edges[j]) && HandleKey(edges[i]) != HandleKey(edges[j])
    {
      NoClash(edges, i, j);
    }
  }

  lemma KindsAreEdgeKinds(kind: string)
    requires kind in LINK_KINDS
    ensures kind in EDGE_KINDS
  {
  }

  lemma NoClash(edges: seq<Edge>, i: nat, j: nat)
    requires OneEach(edges) && i < j < |edges| && GoodLink(edges[i]) && GoodLink(edges[j])
    ensures Joined(edges[i]) && Joined(edges[j])
    ensures EdgeId(edges[i]) != EdgeId(edges[j]) && HandleKey(edges[i]) != HandleKey(edges[j])
  {
    LinkReads(edges[i]);
    LinkReads(edges[j]);
    if EdgeId(edges[i]) == EdgeId(edges[j]) {
      LinkIdTells(edges[i], edges[j]);
      HandleIsOfKind(edges[i], edges[j]);
    }
    if HandleKey(edges[i]) == HandleKey(edges[j]) { KeyTells(edges[i], edges[j]); }
  }

  lemma OneEachJoin(a: seq<Edge>, b: seq<Edge>)
    requires OneEach(a) && OneEach(b) && forall d, e | d in a && e in b :: d.from != e.from
    ensures OneEach(a + b)
  {
  }

  /** Edges from steps of disjoint areas. */
  lemma AreasJoin(a: seq<Edge>, b: seq<Edge>, here: set<string>, there: set<string>, s: string, t: string)
    requires OneEach(a) && OneEach(b) && EndsIn(a, here, s) && EndsIn(b, there, t) && here !! there
    ensures OneEach(a + b)
  {
    OneEachJoin(a, b);
  }

  lemma LinkHandles(from: string, to: string)
    requires PlainName(from) && PlainName(to)
    ensures HandleOf(Link(from, to, "if_true")) == "true" && HandleOf(Link(from, to, "if_false")) == "false"
    ensures HandleOf(Link(from, to, "for_each_body")) == "body" && HandleOf(Link(from, to, "for_each_done")) == "done"
  {
    LinkReads(Link(from, to, "if_true"));
    LinkReads(Link(from, to, "if_false"));
    LinkReads(Link(from, to, "for_each_body"));
    LinkReads(Link(from, to, "for_each_done"));
  }

  lemma TryHandles(from: string, to: string)
    requires PlainName(from) && PlainName(to)
    ensures HandleOf(Link(from, to, "try_body")) == "body" && HandleOf(Link(from, to, "try_catch")) == "catch"
  {
    LinkReads(Link(from, to, "try_body"));
    LinkReads(Link(from, to, "try_catch"));
  }

  lemma EndHandles(from: string, to: string)
    requires PlainName(from) && PlainName(to)
    ensures HandleOf(Link(from, to, "try_finally")) == "finally" && HandleOf(Link(from, to, "try_done")) == "done"
  {
    LinkReads(Link(from, to, "try_finally"));
    LinkReads(Link(from, to, "try_done"));
  }

  lemma TwoDiffer(a: Edge, b: Edge)
    requires HandleOf(a) != HandleOf(b)
    ensures OneEach([a, b])
  {
  }

  lemma FourDiffer(a: Edge, b: Edge, c: Edge, d: Edge)
    requires HandleOf(a) != HandleOf(b) && HandleOf(a) != HandleOf(c) && HandleOf(a) != HandleOf(d)
    requires HandleOf(b) != HandleOf(c) && HandleOf(b) != HandleOf(d) && HandleOf(c) != HandleOf(d)
    ensures OneEach([a, b, c, d])
  {
  }

  lemma OutOneEach(f: Flow, next: string)
    requires WellNamed(f) && PlainName(next)
    ensures OneEach(Out(f, next))
  {
    match f
    case Task(_, _) =>
    case Then(_, _) =>
    case If(key, yes, no) =>
      EntryIsPlain(yes);
      EntryIsPlain(no);
      LinkHandles(key, Entry(yes));
      LinkHandles(key, Entry(no));
      assert "true"[0] == 't' && "false"[0] == 'f';
      TwoDiffer(Out(f, next)[0], Out(f, next)[1]);
    case Loop(key, body) =>
      EntryIsPlain(body);
      LinkHandles(key, Entry(body));
      LinkHandles(key, next);
      assert "body"[0] == 'b' && "done"[0] == 'd';
      TwoDiffer(Out(f, next)[0], Out(f, next)[1]);
    case Try(_, _, _, _) => TryOneEach(f, next);
  }

  lemma TryOneEach(f: Flow, next: string)
    requires f.Try? && WellNamed(f) && PlainName(next)
    ensures OneEach(Out(f, next))
  {
    EntryIsPlain(f.body);
    EntryIsPlain(f.caught);
    EntryIsPlain(f.finally);
    TryHandles(f.key, Entry(f.body));
    TryHandles(f.key, Entry(f.caught));
    EndHandles(f.key, Entry(f.finally));
    EndHandles(f.key, next);
    assert "body"[0] == 'b' && "catch"[0] == 'c' && "finally"[0] == 'f' && "done"[0] == 'd';
    var out := Out(f, next);
    FourDiffer(out[0], out[1], out[2], out[3]);
  }

  lemma {:induction false} FlowOneEach(f: Flow, next: string)
    requires WellNamed(f) && Separate(f) && PlainName(next)
    ensures OneEach(Edges(f, next))
    decreases f, 1
  {
    InnerOneEach(f, next);
    OutOneEach(f, next);
    forall d, e | d in Out(f, next) && e in Inner(f, next)
      ensures d.from != e.from
    {
      OutEnds(f, next, d);
      InnerElsewhere(f, next, e);
    }
    OneEachJoin(Out(f, next), Inner(f, next));
  }

  lemma {:induction false} InnerOneEach(f: Flow, next: string)
    requires WellNamed(f) && Separate(f) && PlainName(next)
    ensures OneEach(Inner(f, next))
    decreases f, 0
  {
    match f
    case Task(_, _) =>
    case Then(first, second) =>
      EntryIsPlain(second);
      FlowOneEach(first, Entry(second));
      FlowOneEach(second, next);
      FlowsJoin(first, Entry(second), second, next);
    case If(_, yes, no) =>
      FlowOneEach(yes, next);
      FlowOneEach(no, next);
      FlowsJoin(yes, next, no, next);
    case Loop(_, body) => FlowOneEach(body, next);
    case Try(_, body, caught, finally) =>
      var meet := Entry(finally);
      EntryIsPlain(finally);
      FlowOneEach(body, meet);
      FlowOneEach(caught, meet);
      FlowOneEach(finally, next);
      FlowsJoin(body, meet, caught, meet);
      AllEnds(finally, next);
      AreasJoin(Edges(body, meet) + Edges(caught, meet), Edges(finally, next), KeysIn(body) + KeysIn(caught),
                KeysIn(finally), meet, next);
  }

  lemma FlowsJoin(a: Flow, s: string, b: Flow, t: string)
    requires WellNamed(a) && WellNamed(b) && PlainName(s) && PlainName(t) && KeysIn(a) !! KeysIn(b)
    requires OneEach(Edges(a, s)) && OneEach(Edges(b, t))
    ensures OneEach(Edges(a, s) + Edges(b, t))
    ensures s == t ==> EndsIn(Edges(a, s) + Edges(b, t), KeysIn(a) + KeysIn(b), s)
  {
    AllEnds(a, s);
    AllEnds(b, t);
    AreasJoin(Edges(a, s), Edges(b, t), KeysIn(a), KeysIn(b), s, t);
  }

  // ----- the whole graph

  /** The flow, followed by a last step. */
  function AllSteps(f: Flow, last: string, kind: string): seq<Step> {
    Steps(f) + [Plain(last, kind)]
  }

  function Graph(f: Flow, last: string): GraphDef {
    GraphDef(Str(Entry(f)), Some(Edges(f, last)))
  }

  lemma WholeKeys(f: Flow, last: string, kind: string)
    ensures Elems(Keys(AllSteps(f, last, kind))) == KeysIn(f) + {last}
    ensures DistinctKeys(AllSteps(f, last, kind)) <==> Separate(f) && last !in KeysIn(f)
  {
    StepKeys(f);
    OneStep(last, kind);
    BothKeys(Steps(f), [Plain(last, kind)]);
  }

  lemma WholeEmbedded(f: Flow, last: string)
    requires WellNamed(f) && Separate(f) && PlainName(last) && last !in KeysIn(f)
    ensures Embedded(f, last, Edges(f, last))
  {
    AllEnds(f, last);
  }

  lemma WholeEdges(f: Flow, last: string, keys: set<string>)
    requires WellNamed(f) && Separate(f) && PlainName(last) && last !in KeysIn(f) && keys == KeysIn(f) + {last}
    ensures EdgesOk(Edges(f, last), keys) && AllDiffer(Edges(f, last))
  {
    forall e | e in Edges(f, last)
      ensures GoodLink(e) && e.from.s in keys && e.to.s in keys && e.from.s != e.to.s
    {
      EdgeEnds(f, last, e);
      Forward(f, last, e);
    }
    FlowOneEach(f, last);
    OneEachOk(Edges(f, last), keys);
  }

  lemma WholeAcyclic(f: Flow, last: string)
    requires WellNamed(f) && Separate(f) && PlainName(last) && last !in KeysIn(f)
    ensures !HasCycle(EdgeArcs(Edges(f, last)))
  {
    var g := EdgeArcs(Edges(f, last));
    forall a, b | (a, b) in g
      ensures 0 - Place(f, b) < 0 - Place(f, a)
    {
      var e :| e in Edges(f, last) && Joined(e) && (From(e), To(e)) == (a, b);
      Forward(f, last, e);
      LinkReads(e);
    }
    RankedIsAcyclic(g, k => 0 - Place(f, k));
  }

  lemma WholeReached(f: Flow, last: string, keys: set<string>)
    requires WellNamed(f) && Separate(f) && PlainName(last) && last !in KeysIn(f) && keys == KeysIn(f) + {last}
    ensures forall k | k in keys :: Reaches(EdgeArcs(Edges(f, last)), Entry(f), k)
  {
    var g := EdgeArcs(Edges(f, last));
    WholeEmbedded(f, last);
    ClosedFlow(f, last, Edges(f, last));
    EntryInside(f);
    forall k | k in keys
      ensures Reaches(g, Entry(f), k)
    {
      if k == last { ExitsReaches(g, KeysIn(f), Entry(f), last); } else { InsideReaches(g, KeysIn(f), Entry(f), k); }
    }
  }

  lemma StepsHaveNoIds(f: Flow)
    ensures forall s | s in Steps(f) :: s.id == None
  {
  }

  lemma AcceptedMeans(steps: seq<Step>, entry: string, edges: seq<Edge>, keys: set<string>)
    requires keys == Elems(Keys(steps)) && entry in keys && PlainName(entry) && steps != []
    requires DistinctKeys(steps) && (forall s | s in steps :: s.id == None)
    requires EdgesOk(edges, keys) && !HasCycle(EdgeArcs(edges))
    requires forall k | k in keys :: Reaches(EdgeArcs(edges), entry, k)
    ensures Accepted(steps, GraphDef(Str(entry), Some(edges))) <==> StepsOk(steps, steps, keys, edges)
  {
    TrimTight(entry);
  }

  /** A laid out workflow is accepted if and only if no key is used twice and it is nested as allowed. */
  lemma LayoutIsAccepted(f: Flow, last: string, kind: string)
    requires WellNamed(f) && PlainName(last) && OrdinaryKind(kind)
    ensures Accepted(AllSteps(f, last, kind), Graph(f, last)) <==> Separate(f) && last !in KeysIn(f) && Nested(f)
  {
    var steps, edges := AllSteps(f, last, kind), Edges(f, last);
    WholeKeys(f, last, kind);
    if DistinctKeys(steps) {
      var keys := KeysIn(f) + {last};
      EntryInside(f);
      EntryIsPlain(f);
      WholeEmbedded(f, last);
      WholeEdges(f, last, keys);
      WholeAcyclic(f, last);
      WholeReached(f, last, keys);
      StepsHaveNoIds(f);
      AcceptedMeans(steps, Entry(f), edges, keys);
      StepsExactly(f, last, steps, keys, edges);
      OneStepOk(last, kind, steps, keys, edges);
      OrdinaryOk(last, kind, steps, keys, edges);
      StepsOkJoin(Steps(f), [Plain(last, kind)], steps, keys, edges);
    }
  }

  // ----- two of them

  /** A flow of one ordinary step. */
  ghost predicate Single(f: Flow, key: string) {
    && WellNamed(f) && Separate(f) && Nested(f) && KeysIn(f) == {key} && Free(f, FOR_EACH) && Free(f, TRY_CATCH)
  }

  lemma TaskIsSingle(key: string, kind: string)
    requires PlainName(key) && OrdinaryKind(kind)
    ensures Single(Task(key, kind), key)
  {
  }

  lemma LoopIsAccepted(loop: string, body: string, last: string, kind: string)
    requires PlainName(loop) && PlainName(body) && PlainName(last) && OrdinaryKind(kind)
    requires loop != body && loop != last && body != last
    ensures var f := Loop(loop, Task(body, kind)); Accepted(AllSteps(f, last, kind), Graph(f, last))
  {
    TaskIsSingle(body, kind);
    SingleLoop(Loop(loop, Task(body, kind)), body, last);
    LayoutIsAccepted(Loop(loop, Task(body, kind)), last, kind);
  }

  lemma SingleLoop(f: Flow, body: string, last: string)
    requires f.Loop? && PlainName(f.key) && Single(f.body, body) && f.key != body && last != f.key && last != body
    ensures WellNamed(f) && Separate(f) && Nested(f) && last !in KeysIn(f)
  {
  }

  lemma TryIsAccepted(try: string, body: string, caught: string, finally: string, last: string, kind: string)
    requires PlainName(try) && PlainName(body) && PlainName(caught) && PlainName(finally) && PlainName(last)
    requires OrdinaryKind(kind) && Distinct([try, body, caught, finally, last])
    ensures var f := Try(try, Task(body, kind), Task(caught, kind), Task(finally, kind));
      Accepted(AllSteps(f, last, kind), Graph(f, last))
  {
    var f := Try(try, Task(body, kind), Task(caught, kind), Task(finally, kind));
    TaskIsSingle(body, kind);
    TaskIsSingle(caught, kind);
    TaskIsSingle(finally, kind);
    SingleTry(f, [try, body, caught, finally, last]);
    LayoutIsAccepted(f, last, kind);
  }

  lemma SingleTry(f: Flow, names: seq<string>)
    requires f.Try? && |names| == 5 && Distinct(names) && f.key == names[0] && PlainName(f.key)
    requires Single(f.body, names[1]) && Single(f.caught, names[2]) && Single(f.finally, names[3])
    ensures WellNamed(f) && Separate(f) && Nested(f) && names[4] !in KeysIn(f)
  {
    assert names[0] != names[1] && names[0] != names[2] && names[0] != names[3] && names[0] != names[4];
    assert names[1] != names[2] && names[1] != names[3] && names[1] != names[4];
    assert names[2] != names[3] && names[2] != names[4] && names[3] != names[4];
  }
}
