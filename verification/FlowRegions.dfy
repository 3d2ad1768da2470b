/** The ways through a laid out workflow: every part is a region that is entered at one step and left to one step. */
module FlowRegions {
  import opened Text
  import opened Digraph
  import opened Traversal
  import opened GraphModel
  import opened Flows

  // ----- ways inside a flow

  /** A path from `a` to `b` that stays in `area`. */
  ghost predicate Inside(g: Arcs, area: set<string>, a: string, b: string) {
    exists p :: PathBetween(g, p, a, b) && Elems(p) <= area
  }

  lemma InsideSelf(g: Arcs, area: set<string>, a: string)
    requires a in area
    ensures Inside(g, area, a, a)
  {
    assert PathBetween(g, [a], a, a) && Elems([a]) <= area;
  }

  lemma InsideArc(g: Arcs, area: set<string>, a: string, b: string)
    requires a in area && b in area && (a, b) in g
    ensures Inside(g, area, a, b)
  {
    assert PathBetween(g, [a, b], a, b) && Elems([a, b]) <= area;
  }

  lemma InsideMore(g: Arcs, small: set<string>, area: set<string>, a: string, b: string)
    requires Inside(g, small, a, b) && small <= area
    ensures Inside(g, area, a, b)
  {
    var p :| PathBetween(g, p, a, b) && Elems(p) <= small;
    assert Elems(p) <= area;
  }

  lemma InsideJoin(g: Arcs, area: set<string>, a: string, b: string, c: string)
    requires Inside(g, area, a, b) && Inside(g, area, b, c)
    ensures Inside(g, area, a, c)
  {
    var p :| PathBetween(g, p, a, b) && Elems(p) <= area;
    var q :| PathBetween(g, q, b, c) && Elems(q) <= area;
    JoinPaths(g, p, q, a, b, c);
    assert forall x | x in p + q[1..] :: x in Elems(p) || x in Elems(q);
    assert Elems(p + q[1..]) <= area;
  }

  /** A way inside to a step with an arc to `next`. */
  ghost predicate Exits(g: Arcs, area: set<string>, a: string, next: string) {
    exists u :: Inside(g, area, a, u) && (u, next) in g
  }

  lemma ExitsArc(g: Arcs, area: set<string>, a: string, next: string)
    requires a in area && (a, next) in g
    ensures Exits(g, area, a, next)
  {
    InsideSelf(g, area, a);
  }

  lemma ExitsMore(g: Arcs, small: set<string>, area: set<string>, a: string, next: string)
    requires Exits(g, small, a, next) && small <= area
    ensures Exits(g, area, a, next)
  {
    var u :| Inside(g, small, a, u) && (u, next) in g;
    InsideMore(g, small, area, a, u);
  }

  lemma ExitsInto(g: Arcs, small: set<string>, area: set<string>, a: string, b: string)
    requires Exits(g, small, a, b) && small <= area && b in area
    ensures Inside(g, area, a, b)
  {
    var u :| Inside(g, small, a, u) && (u, b) in g;
    InsideMore(g, small, area, a, u);
    assert u in area by {
      var p :| PathBetween(g, p, a, u) && Elems(p) <= area;
      assert p[|p| - 1] in Elems(p);
    }
    InsideArc(g, area, u, b);
    InsideJoin(g, area, a, u, b);
  }

  lemma ExitsAfter(g: Arcs, area: set<string>, a: string, b: string, next: string)
    requires Inside(g, area, a, b) && Exits(g, area, b, next)
    ensures Exits(g, area, a, next)
  {
    var u :| Inside(g, area, b, u) && (u, next) in g;
    InsideJoin(g, area, a, b, u);
  }

  /** The entry leads to every step of the flow, and every step leads on to the next, without leaving before. */
  ghost predicate Connected(g: Arcs, f: Flow, next: string) {
    forall k | k in KeysIn(f) :: Inside(g, KeysIn(f), Entry(f), k) && Exits(g, KeysIn(f), k, next)
  }

  /** A part of a flow that its entry leads to, and that is followed by something which leads on. */
  lemma PartFlows(g: Arcs, part: Flow, stop: string, area: set<string>, entry: string, next: string)
    requires Connected(g, part, stop) && KeysIn(part) <= area
    requires Inside(g, area, entry, Entry(part))
    requires stop == next || (stop in area && Exits(g, area, stop, next))
    ensures forall k | k in KeysIn(part) :: Inside(g, area, entry, k) && Exits(g, area, k, next)
  {
    forall k | k in KeysIn(part)
      ensures Inside(g, area, entry, k) && Exits(g, area, k, next)
    {
      InsideMore(g, KeysIn(part), area, Entry(part), k);
      InsideJoin(g, area, entry, Entry(part), k);
      if stop == next {
        ExitsMore(g, KeysIn(part), area, k, next);
      } else {
        ExitsInto(g, KeysIn(part), area, k, stop);
        ExitsAfter(g, area, k, stop, next);
      }
    }
  }

  ghost predicate HasArcs(g: Arcs, edges: seq<Edge>) {
    forall e | e in edges && GoodLink(e) :: (e.from.s, e.to.s) in g
  }

  lemma HasArcsParts(g: Arcs, a: seq<Edge>, b: seq<Edge>)
    requires HasArcs(g, a + b)
    ensures HasArcs(g, a) && HasArcs(g, b)
  {
    assert forall e | e in a :: e in a + b;
    assert forall e | e in b :: e in a + b;
  }

  lemma OutArcs(g: Arcs, f: Flow, next: string)
    requires WellNamed(f) && PlainName(next) && HasArcs(g, Out(f, next))
    ensures f.Task? ==> (f.key, next) in g
    ensures f.If? ==> (f.key, Entry(f.yes)) in g && (f.key, Entry(f.no)) in g
    ensures f.Loop? ==> (f.key, Entry(f.body)) in g && (f.key, next) in g
    ensures f.Try? ==>
      && (f.key, Entry(f.body)) in g && (f.key, Entry(f.caught)) in g
      && (f.key, Entry(f.finally)) in g && (f.key, next) in g
  {
    var out := Out(f, next);
    forall i | 0 <= i < |out|
      ensures (out[i].from.s, out[i].to.s) in g
    {
      OutEnds(f, next, out[i]);
    }
    if f.If? || f.Loop? { assert out[0] in out && out[1] in out; }
    if f.Task? { assert out[0] in out; }
    if f.Try? { assert out[0] in out && out[1] in out && out[2] in out && out[3] in out; }
  }

  lemma {:induction false} FlowIsConnected(g: Arcs, f: Flow, next: string)
    requires WellNamed(f) && PlainName(next) && HasArcs(g, Edges(f, next))
    ensures Connected(g, f, next)
    decreases f
  {
    var area := KeysIn(f);
    EntryInside(f);
    InsideSelf(g, area, Entry(f));
    HasArcsParts(g, Out(f, next), Inner(f, next));
    OutArcs(g, f, next);
    match f
    case Task(key, _) => ExitsArc(g, area, key, next);
    case Then(first, second) => ThenFlows(g, f, next);
    case If(key, yes, no) => IfFlows(g, f, next);
    case Loop(key, body) =>
      FlowIsConnected(g, body, next);
      EntryInside(body);
      ExitsArc(g, area, key, next);
      InsideArc(g, area, key, Entry(body));
      PartFlows(g, body, next, area, key, next);
    case Try(key, body, caught, finally) => TryFlows(g, f, next);
  }

  lemma {:induction false} ThenFlows(g: Arcs, f: Flow, next: string)
    requires f.Then? && WellNamed(f) && PlainName(next) && HasArcs(g, Inner(f, next))
    ensures Connected(g, f, next)
    decreases f, 0
  {
    var first, second, area := f.first, f.second, KeysIn(f);
    HasArcsParts(g, Edges(first, Entry(second)), Edges(second, next));
    EntryIsPlain(second);
    EntryInside(first);
    EntryInside(second);
    FlowIsConnected(g, first, Entry(second));
    FlowIsConnected(g, second, next);
    ExitsMore(g, KeysIn(second), area, Entry(second), next);
    InsideSelf(g, area, Entry(first));
    PartFlows(g, first, Entry(second), area, Entry(first), next);
    ExitsInto(g, KeysIn(first), area, Entry(first), Entry(second));
    PartFlows(g, second, next, area, Entry(first), next);
  }

  lemma {:induction false} IfFlows(g: Arcs, f: Flow, next: string)
    requires f.If? && WellNamed(f) && PlainName(next) && HasArcs(g, Inner(f, next))
    requires (f.key, Entry(f.yes)) in g && (f.key, Entry(f.no)) in g
    ensures Connected(g, f, next)
    decreases f, 0
  {
    var key, yes, no, area := f.key, f.yes, f.no, KeysIn(f);
    HasArcsParts(g, Edges(yes, next), Edges(no, next));
    EntryInside(yes);
    EntryInside(no);
    FlowIsConnected(g, yes, next);
    FlowIsConnected(g, no, next);
    InsideSelf(g, area, key);
    InsideArc(g, area, key, Entry(yes));
    InsideArc(g, area, key, Entry(no));
    PartFlows(g, yes, next, area, key, next);
    PartFlows(g, no, next, area, key, next);
    ExitsAfter(g, area, key, Entry(yes), next);
  }

  lemma {:induction false} TryFlows(g: Arcs, f: Flow, next: string)
    requires f.Try? && WellNamed(f) && PlainName(next) && HasArcs(g, Inner(f, next))
    requires (f.key, Entry(f.body)) in g && (f.key, Entry(f.caught)) in g
    requires (f.key, Entry(f.finally)) in g && (f.key, next) in g
    ensures Connected(g, f, next)
    decreases f, 0
  {
    var Try(key, body, caught, finally) := f;
    var area := KeysIn(f);
    HasArcsParts(g, Edges(body, Entry(finally)) + Edges(caught, Entry(finally)), Edges(finally, next));
    HasArcsParts(g, Edges(body, Entry(finally)), Edges(caught, Entry(finally)));
    EntryIsPlain(finally);
    EntryInside(body);
    EntryInside(caught);
    EntryInside(finally);
    FlowIsConnected(g, body, Entry(finally));
    FlowIsConnected(g, caught, Entry(finally));
    FlowIsConnected(g, finally, next);
    ExitsArc(g, area, key, next);
    InsideSelf(g, area, key);
    InsideArc(g, area, key, Entry(body));
    InsideArc(g, area, key, Entry(caught));
    InsideArc(g, area, key, Entry(finally));
    PartFlows(g, finally, next, area, key, next);
    PartFlows(g, body, Entry(finally), area, key, next);
    PartFlows(g, caught, Entry(finally), area, key, next);
  }

  lemma InsideReaches(g: Arcs, area: set<string>, a: string, b: string)
    requires Inside(g, area, a, b)
    ensures Reaches(g, a, b)
  {
    var p :| PathBetween(g, p, a, b) && Elems(p) <= area;
  }

  lemma ExitsReaches(g: Arcs, area: set<string>, a: string, next: string)
    requires Exits(g, area, a, next)
    ensures Reaches(g, a, next)
  {
    var u :| Inside(g, area, a, u) && (u, next) in g;
    InsideReaches(g, area, a, u);
    ReachesArc(g, u, next);
    ReachesTransitive(g, a, u, next);
  }

  // ----- the region of a flow

  /** Arcs out of the area stay in it or lead to `next`. */
  ghost predicate Closed(g: Arcs, area: set<string>, next: string) {
    forall a, b | (a, b) in g && a in area :: b in area || b == next
  }

  lemma {:induction false} StaysInArea(g: Arcs, area: set<string>, next: string, p: seq<string>, m: nat)
    requires Closed(g, area, next) && IsPath(g, p) && p[0] in area && m < |p| && next !in p
    ensures p[m] in area
  {
    if m > 0 {
      StaysInArea(g, area, next, p, m - 1);
      assert (p[m - 1], p[m]) in g;
      assert p[m] in p;
    }
  }

  /** The region between the entry of a flow and the step behind it holds exactly the steps of the flow. */
  lemma RegionIsFlow(g: Arcs, f: Flow, next: string, k: string)
    requires Connected(g, f, next) && Closed(g, KeysIn(f), next) && next !in KeysIn(f)
    ensures InRegion(g, Entry(f), Some(next), k) <==> k in KeysIn(f)
  {
    EntryInside(f);
    if k in KeysIn(f) {
      var p :| PathBetween(g, p, Entry(f), k) && Elems(p) <= KeysIn(f);
      assert next !in p by { assert forall x | x in p :: x in Elems(p); }
      assert Avoids(p, Some(next));
    }
    forall p | PathBetween(g, p, Entry(f), k) && Avoids(p, Some(next))
      ensures k in KeysIn(f)
    {
      StaysInArea(g, KeysIn(f), next, p, |p| - 1);
    }
  }

  // ----- a flow inside a larger graph

  /** All edges out of the flow are its own, and others enter it at its entry only. */
  ghost predicate Embedded(f: Flow, next: string, edges: seq<Edge>) {
    && WellNamed(f) && Separate(f) && PlainName(next) && next !in KeysIn(f)
    && (forall e | e in edges :: GoodLink(e))
    && (forall e | e in Edges(f, next) :: e in edges)
    && (forall e | e in edges && e.from.s in KeysIn(f) :: e in Edges(f, next))
    && (forall e | e in edges && e.to.s in KeysIn(f) && e.from.s !in KeysIn(f) :: e.to.s == Entry(f))
  }

  /** The same for a part of a flow within that flow. */
  ghost predicate PartOf(f: Flow, next: string, part: Flow, stop: string) {
    && WellNamed(part) && Separate(part) && PlainName(stop) && stop !in KeysIn(part)
    && KeysIn(part) <= KeysIn(f) && (Entry(f) in KeysIn(part) ==> Entry(f) == Entry(part))
    && (forall e | e in Edges(part, stop) :: e in Edges(f, next))
    && (forall e | e in Edges(f, next) && GoodLink(e) && e.from.s in KeysIn(part) :: e in Edges(part, stop))
    && (forall e | e in Edges(f, next) && GoodLink(e) && e.to.s in KeysIn(part) && e.from.s !in KeysIn(part) ::
          e.to.s == Entry(part))
  }

  lemma PartIsEmbedded(f: Flow, next: string, part: Flow, stop: string, edges: seq<Edge>)
    requires Embedded(f, next, edges) && PartOf(f, next, part, stop)
    ensures Embedded(part, stop, edges)
  {
  }

  ghost predicate EndsIn(edges: seq<Edge>, area: set<string>, next: string) {
    forall e | e in edges :: GoodLink(e) && e.from.s in area && e.to.s in area + {next}
  }

  lemma AllEnds(f: Flow, next: string)
    requires WellNamed(f) && PlainName(next)
    ensures EndsIn(Edges(f, next), KeysIn(f), next)
  {
    forall e | e in Edges(f, next) { EdgeEnds(f, next, e); }
  }

  /** Edges from elsewhere that meet the part at its entry, if at all. */
  ghost predicate Skirts(edges: seq<Edge>, part: Flow) {
    forall e | e in edges ::
      GoodLink(e) && e.from.s !in KeysIn(part) && (e.to.s in KeysIn(part) ==> e.to.s == Entry(part))
  }

  lemma FlowSkirts(f: Flow, next: string, part: Flow)
    requires WellNamed(f) && PlainName(next) && KeysIn(f) !! KeysIn(part)
    requires next in KeysIn(part) ==> next == Entry(part)
    ensures Skirts(Edges(f, next), part)
  {
    AllEnds(f, next);
  }

  lemma OutSkirts(f: Flow, next: string, part: Flow)
    requires WellNamed(f) && PlainName(next) && next !in KeysIn(part) && Entry(f) !in KeysIn(part)
    requires forall e | e in Out(f, next) && e.to.Str? && e.to.s in KeysIn(part) :: e.to.s == Entry(part)
    ensures Skirts(Out(f, next), part)
  {
    forall e | e in Out(f, next) { OutEnds(f, next, e); }
  }

  lemma PartFits(f: Flow, next: string, part: Flow, stop: string, rest: seq<Edge>)
    requires WellNamed(part) && Separate(part) && PlainName(stop) && stop !in KeysIn(part)
    requires KeysIn(part) <= KeysIn(f) && (Entry(f) in KeysIn(part) ==> Entry(f) == Entry(part))
    requires Skirts(rest, part) && forall e :: e in Edges(f, next) <==> e in rest || e in Edges(part, stop)
    ensures PartOf(f, next, part, stop)
  {
    AllEnds(part, stop);
  }

  lemma ThenParts(f: Flow, next: string)
    requires f.Then? && WellNamed(f) && Separate(f) && PlainName(next) && next !in KeysIn(f)
    ensures PartOf(f, next, f.first, Entry(f.second)) && PartOf(f, next, f.second, next)
  {
    EntryIsPlain(f.second);
    EntryInside(f.first);
    EntryInside(f.second);
    FlowSkirts(f.second, next, f.first);
    FlowSkirts(f.first, Entry(f.second), f.second);
    PartFits(f, next, f.first, Entry(f.second), Edges(f.second, next));
    PartFits(f, next, f.second, next, Edges(f.first, Entry(f.second)));
  }

  lemma IfParts(f: Flow, next: string)
    requires f.If? && WellNamed(f) && Separate(f) && PlainName(next) && next !in KeysIn(f)
    ensures PartOf(f, next, f.yes, next) && PartOf(f, next, f.no, next)
  {
    EntryInside(f.yes);
    EntryInside(f.no);
    FlowSkirts(f.no, next, f.yes);
    FlowSkirts(f.yes, next, f.no);
    OutSkirts(f, next, f.yes);
    OutSkirts(f, next, f.no);
    PartFits(f, next, f.yes, next, Out(f, next) + Edges(f.no, next));
    PartFits(f, next, f.no, next, Out(f, next) + Edges(f.yes, next));
  }

  lemma LoopPart(f: Flow, next: string)
    requires f.Loop? && WellNamed(f) && Separate(f) && PlainName(next) && next !in KeysIn(f)
    ensures PartOf(f, next, f.body, next)
  {
    EntryInside(f.body);
    OutSkirts(f, next, f.body);
    PartFits(f, next, f.body, next, Out(f, next));
  }

  lemma SkirtsJoin(a: seq<Edge>, b: seq<Edge>, part: Flow)
    requires Skirts(a, part) && Skirts(b, part)
    ensures Skirts(a + b, part)
  {
  }

  lemma TryOutSkirts(f: Flow, next: string, part: Flow)
    requires f.Try? && WellNamed(f) && Separate(f) && PlainName(next) && next !in KeysIn(f)
    requires part in {f.body, f.caught, f.finally}
    ensures Skirts(Out(f, next), part)
  {
    EntryInside(f.body);
    EntryInside(f.caught);
    EntryInside(f.finally);
    forall e | e in Out(f, next) { TryOutEnds(f, next, e); }
  }

  lemma TryEdges(f: Flow, next: string)
    requires f.Try?
    ensures var meet := Entry(f.finally);
      forall e :: e in Edges(f, next) <==>
        e in Out(f, next) || e in Edges(f.body, meet) || e in Edges(f.caught, meet) || e in Edges(f.finally, next)
  {
  }

  /** Nothing in the flow but its own edges leads into Body or Catch. */
  lemma TrySide(f: Flow, next: string, part: Flow, other: Flow)
    requires f.Try? && WellNamed(f) && Separate(f) && PlainName(next) && next !in KeysIn(f)
    requires (part, other) == (f.body, f.caught) || (part, other) == (f.caught, f.body)
    ensures PartOf(f, next, part, Entry(f.finally))
  {
    var meet := Entry(f.finally);
    var rest := Out(f, next) + (Edges(other, meet) + Edges(f.finally, next));
    EntryIsPlain(f.finally);
    EntryInside(f.finally);
    FlowSkirts(other, meet, part);
    FlowSkirts(f.finally, next, part);
    TryOutSkirts(f, next, part);
    SkirtsJoin(Edges(other, meet), Edges(f.finally, next), part);
    SkirtsJoin(Out(f, next), Edges(other, meet) + Edges(f.finally, next), part);
    TryEdges(f, next);
    PartFits(f, next, part, meet, rest);
  }

  lemma TryEnd(f: Flow, next: string)
    requires f.Try? && WellNamed(f) && Separate(f) && PlainName(next) && next !in KeysIn(f)
    ensures PartOf(f, next, f.finally, next)
  {
    var meet := Entry(f.finally);
    var rest := Out(f, next) + (Edges(f.body, meet) + Edges(f.caught, meet));
    EntryIsPlain(f.finally);
    FlowSkirts(f.body, meet, f.finally);
    FlowSkirts(f.caught, meet, f.finally);
    TryOutSkirts(f, next, f.finally);
    SkirtsJoin(Edges(f.body, meet), Edges(f.caught, meet), f.finally);
    SkirtsJoin(Out(f, next), Edges(f.body, meet) + Edges(f.caught, meet), f.finally);
    TryEdges(f, next);
    PartFits(f, next, f.finally, next, rest);
  }

  lemma ClosedFlow(f: Flow, next: string, edges: seq<Edge>)
    requires Embedded(f, next, edges)
    ensures Closed(EdgeArcs(edges), KeysIn(f), next) && Connected(EdgeArcs(edges), f, next)
  {
    var g := EdgeArcs(edges);
    forall a, b | (a, b) in g && a in KeysIn(f)
      ensures b in KeysIn(f) || b == next
    {
      var e :| e in edges && Joined(e) && (From(e), To(e)) == (a, b);
      LinkReads(e);
      EdgeEnds(f, next, e);
    }
    forall e | e in Edges(f, next)
      ensures (e.from.s, e.to.s) in g
    {
      LinkReads(e);
    }
    FlowIsConnected(g, f, next);
  }

  ghost predicate RegionIs(g: Arcs, start: string, stop: string, area: set<string>) {
    forall k :: InRegion(g, start, Some(stop), k) <==> k in area
  }

  ghost predicate AllReach(g: Arcs, area: set<string>, stop: string) {
    forall k | k in area :: Reaches(g, k, stop)
  }

  lemma EmbeddedRegion(f: Flow, next: string, edges: seq<Edge>)
    requires Embedded(f, next, edges)
    ensures RegionIs(EdgeArcs(edges), Entry(f), next, KeysIn(f)) && AllReach(EdgeArcs(edges), KeysIn(f), next)
  {
    var g := EdgeArcs(edges);
    ClosedFlow(f, next, edges);
    forall k { RegionIsFlow(g, f, next, k); }
    forall k | k in KeysIn(f) { ExitsReaches(g, KeysIn(f), k, next); }
  }
}
