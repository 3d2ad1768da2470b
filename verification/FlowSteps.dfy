/** Which steps of a laid out workflow the validator accepts. */
module FlowSteps {
  import opened Text
  import opened Digraph
  import opened Traversal
  import opened GraphModel
  import opened Flows
  import opened FlowRegions

  // ----- the edges of one kind

  ghost predicate AllDiffer(edges: seq<Edge>) {
    forall i, j | 0 <= i < j < |edges| :: edges[i] != edges[j]
  }

  lemma {:induction false} OutgoingDiffers(key: string, edges: seq<Edge>)
    requires AllDiffer(edges)
    ensures AllDiffer(Outgoing(key, edges))
  {
    if edges != [] {
      OutgoingDiffers(key, edges[1..]);
      assert edges[0] !in edges[1..];
      assert edges[0] !in Outgoing(key, edges[1..]);
    }
  }

  lemma {:induction false} OfKindDiffers(edges: seq<Edge>, kind: string)
    requires AllDiffer(edges)
    ensures AllDiffer(OfKind(edges, kind))
  {
    if edges != [] {
      OfKindDiffers(edges[1..], kind);
      assert edges[0] !in edges[1..];
      assert edges[0] !in OfKind(edges[1..], kind);
    }
  }

  lemma OnlyOne(edges: seq<Edge>, e: Edge)
    requires AllDiffer(edges) && e in edges && forall d | d in edges :: d == e
    ensures edges == [e]
  {
    assert |edges| <= 1 || edges[0] != edges[1];
    forall i | 0 <= i < |edges|
      ensures edges[i] == e
    {
      assert edges[i] in edges;
    }
  }

  lemma OnlyOfKind(edges: seq<Edge>, key: string, kind: string, e: Edge)
    requires AllDiffer(edges) && e in edges && StringValue(e.from) == Some(key) && StringValue(e.kind) == Some(kind)
    requires forall d | d in edges && StringValue(d.from) == Some(key) && StringValue(d.kind) == Some(kind) :: d == e
    ensures OfKind(Outgoing(key, edges), kind) == [e]
  {
    OutgoingDiffers(key, edges);
    OfKindDiffers(Outgoing(key, edges), kind);
    OnlyOne(OfKind(Outgoing(key, edges), kind), e);
  }

  /** The edges out of the first step of a flow. */
  lemma OutgoingIsOut(f: Flow, next: string, edges: seq<Edge>, e: Edge)
    requires Embedded(f, next, edges) && !f.Then? && e in edges
    ensures StringValue(e.from) == Some(f.key) <==> e in Out(f, next)
  {
    LinkReads(e);
    if e in Out(f, next) {
      OutEnds(f, next, e);
    } else if e.from.s == f.key {
      EntryInside(f);
      assert e in Inner(f, next);
      InnerElsewhere(f, next, e);
    }
  }

  lemma InnerElsewhere(f: Flow, next: string, e: Edge)
    requires WellNamed(f) && Separate(f) && PlainName(next) && !f.Then? && e in Inner(f, next)
    ensures GoodLink(e) && e.from.s != f.key
  {
    match f
    case If(_, yes, no) =>
      AllEnds(yes, next);
      AllEnds(no, next);
    case Loop(_, body) => AllEnds(body, next);
    case Try(_, body, caught, finally) =>
      EntryIsPlain(finally);
      AllEnds(body, Entry(finally));
      AllEnds(caught, Entry(finally));
      AllEnds(finally, next);
  }

  // ----- which steps the validator accepts

  ghost predicate Setting(steps: seq<Step>, keys: set<string>, edges: seq<Edge>, f: Flow, next: string) {
    && Embedded(f, next, edges) && AllDiffer(edges) && DistinctKeys(steps) && (forall s | s in Steps(f) :: s in steps)
    && KeysIn(f) <= keys && next in keys
  }

  lemma PartSetting(steps: seq<Step>, keys: set<string>, edges: seq<Edge>, f: Flow, next: string, part: Flow,
                    stop: string)
    requires Setting(steps, keys, edges, f, next) && PartOf(f, next, part, stop) && stop in KeysIn(f) + {next}
    requires forall s | s in Steps(part) :: s in Steps(f)
    ensures Setting(steps, keys, edges, part, stop)
  {
    PartIsEmbedded(f, next, part, stop, edges);
  }

  ghost predicate KindsDiffer(out: seq<Edge>) {
    forall i, j | 0 <= i < |out| && 0 <= j < |out| && i != j :: out[i].kind != out[j].kind
  }

  lemma OutAlone(f: Flow, next: string, edges: seq<Edge>, out: seq<Edge>, i: nat, kind: string, d: Edge)
    requires Embedded(f, next, edges) && !f.Then? && out == Out(f, next) && KindsDiffer(out)
    requires i < |out| && out[i].kind == Str(kind) && d in edges
    ensures StringValue(d.from) == Some(f.key) && StringValue(d.kind) == Some(kind) ==> d == out[i]
  {
    LinkReads(d);
    OutgoingIsOut(f, next, edges, d);
  }

  /** The single edge of a kind out of the first step of a flow. */
  lemma OutOfKind(f: Flow, next: string, edges: seq<Edge>, out: seq<Edge>, i: nat, kind: string)
    requires Embedded(f, next, edges) && AllDiffer(edges) && !f.Then? && out == Out(f, next) && KindsDiffer(out)
    requires i < |out| && out[i].kind == Str(kind)
    ensures OfKind(Outgoing(f.key, edges), kind) == [out[i]]
  {
    assert out[i] in out && out[i] in Edges(f, next);
    LinkReads(out[i]);
    forall d | d in edges { OutAlone(f, next, edges, out, i, kind, d); }
    OutgoingIsOut(f, next, edges, out[i]);
    OnlyOfKind(edges, f.key, kind, out[i]);
  }

  lemma LoopOut(f: Flow, next: string)
    requires f.Loop?
    ensures var out := Out(f, next);
      KindsDiffer(out) && |out| == 2 && out[0].kind == Str("for_each_body") && out[1].kind == Str("for_each_done")
  {
    assert "for_each_body"[9] == 'b' && "for_each_done"[9] == 'd';
  }

  lemma LoopKinds(f: Flow, next: string, edges: seq<Edge>, out: seq<Edge>)
    requires f.Loop? && Embedded(f, next, edges) && AllDiffer(edges) && out == Out(f, next)
    ensures |out| == 2
    ensures OfKind(Outgoing(f.key, edges), "for_each_body") == [out[0]]
    ensures OfKind(Outgoing(f.key, edges), "for_each_done") == [out[1]]
    ensures forall e | e in Outgoing(f.key, edges) :: KindIn(e, {"for_each_body", "for_each_done"})
  {
    LoopOut(f, next);
    OutOfKind(f, next, edges, out, 0, "for_each_body");
    OutOfKind(f, next, edges, out, 1, "for_each_done");
    forall e | e in Outgoing(f.key, edges)
      ensures KindIn(e, {"for_each_body", "for_each_done"})
    {
      LinkReads(e);
      OutgoingIsOut(f, next, edges, e);
    }
  }

  /** A region entered once and without FOR_EACH, said of sets. */
  lemma LoopRegionMeans(loop: string, body: string, done: string, steps: seq<Step>, edges: seq<Edge>, area: set<string>)
    requires RegionIs(EdgeArcs(edges), body, done, area) && AllReach(EdgeArcs(edges), area, done)
    requires body != done && loop !in area
    requires forall e | e in edges && Joined(e) && To(e) in area && From(e) !in area ::
      From(e) == loop && To(e) == body && StringValue(e.kind) == Some("for_each_body")
    ensures LoopRegion(loop, body, done, steps, edges) <==> NoneOf(steps, area, FOR_EACH)
  {
    var g := EdgeArcs(edges);
    forall k | k in area
      ensures InRegion(g, body, Some(done), k) && Reaches(g, k, done)
    {
    }
  }

  /** The body of a loop is a well-formed region exactly when it has no FOR_EACH. */
  lemma LoopRegionExactly(f: Flow, next: string, steps: seq<Step>, keys: set<string>, edges: seq<Edge>)
    requires f.Loop? && Setting(steps, keys, edges, f, next) && Setting(steps, keys, edges, f.body, next)
    ensures LoopRegion(f.key, Entry(f.body), next, steps, edges) <==> Free(f.body, FOR_EACH)
  {
    EmbeddedRegion(f.body, next, edges);
    FreeMeans(f.body, FOR_EACH, steps);
    EntryInside(f.body);
    OutEnds(f, next, Out(f, next)[0]);
    forall e | e in edges && Joined(e) && To(e) in KeysIn(f.body) && From(e) !in KeysIn(f.body)
      ensures From(e) == f.key && To(e) == Entry(f.body) && StringValue(e.kind) == Some("for_each_body")
    {
      LinkReads(e);
      LoopEntered(f, next, edges, e);
    }
    LoopRegionMeans(f.key, Entry(f.body), next, steps, edges, KeysIn(f.body));
  }

  lemma LoopEntered(f: Flow, next: string, edges: seq<Edge>, e: Edge)
    requires f.Loop? && Embedded(f, next, edges) && e in edges
    requires e.to.s in KeysIn(f.body) && e.from.s !in KeysIn(f.body)
    ensures e == Out(f, next)[0]
  {
    EntryInside(f);
    if e in Inner(f, next) { AllEnds(f.body, next); }
  }

  /** A FOR_EACH with one edge of each kind is accepted exactly for a well-formed region. */
  lemma LoopOkMeans(step: Step, steps: seq<Step>, keys: set<string>, edges: seq<Edge>, enter: Edge, leave: Edge)
    requires Joined(enter) && Joined(leave) && To(enter) in keys && To(leave) in keys
    requires OfKind(Outgoing(step.key, edges), "for_each_body") == [enter]
    requires OfKind(Outgoing(step.key, edges), "for_each_done") == [leave]
    requires forall e | e in Outgoing(step.key, edges) :: KindIn(e, {"for_each_body", "for_each_done"})
    ensures LoopOk(step, steps, keys, edges) <==> LoopRegion(step.key, To(enter), To(leave), steps, edges)
  {
  }

  lemma LoopExactly(f: Flow, next: string, steps: seq<Step>, keys: set<string>, edges: seq<Edge>)
    requires f.Loop? && Setting(steps, keys, edges, f, next) && Setting(steps, keys, edges, f.body, next)
    ensures LoopOk(Plain(f.key, FOR_EACH), steps, keys, edges) <==> Free(f.body, FOR_EACH)
  {
    var mine := Out(f, next);
    LoopKinds(f, next, edges, mine);
    LoopRegionExactly(f, next, steps, keys, edges);
    EntryInside(f.body);
    OutEnds(f, next, mine[0]);
    OutEnds(f, next, mine[1]);
    LinkReads(mine[0]);
    LinkReads(mine[1]);
    LoopOkMeans(Plain(f.key, FOR_EACH), steps, keys, edges, mine[0], mine[1]);
  }

  lemma TryKindsDiffer()
    ensures "try_body" != "try_catch" && "try_body" != "try_finally" && "try_body" != "try_done"
    ensures "try_catch" != "try_finally" && "try_catch" != "try_done" && "try_finally" != "try_done"
  {
    assert "try_body"[4] == 'b' && "try_catch"[4] == 'c' && "try_finally"[4] == 'f' && "try_done"[4] == 'd';
  }

  lemma TryOut(f: Flow, next: string)
    requires f.Try?
    ensures var out := Out(f, next);
      && KindsDiffer(out) && |out| == 4 && out[0].kind == Str("try_body") && out[1].kind == Str("try_catch")
      && out[2].kind == Str("try_finally") && out[3].kind == Str("try_done")
  {
    TryKindsDiffer();
  }

  lemma TryKindsOf(f: Flow, next: string, edges: seq<Edge>, out: seq<Edge>)
    requires f.Try? && Embedded(f, next, edges) && AllDiffer(edges) && out == Out(f, next)
    ensures |out| == 4
    ensures OfKind(Outgoing(f.key, edges), "try_body") == [out[0]]
    ensures OfKind(Outgoing(f.key, edges), "try_catch") == [out[1]]
    ensures OfKind(Outgoing(f.key, edges), "try_finally") == [out[2]]
    ensures OfKind(Outgoing(f.key, edges), "try_done") == [out[3]]
  {
    TryOut(f, next);
    OutOfKind(f, next, edges, out, 0, "try_body");
    OutOfKind(f, next, edges, out, 1, "try_catch");
    OutOfKind(f, next, edges, out, 2, "try_finally");
    OutOfKind(f, next, edges, out, 3, "try_done");
  }

  lemma TryKindsOnly(f: Flow, next: string, edges: seq<Edge>)
    requires f.Try? && Embedded(f, next, edges)
    ensures forall e | e in Outgoing(f.key, edges) :: KindIn(e, TRY_KINDS)
  {
    forall e | e in Outgoing(f.key, edges)
      ensures KindIn(e, TRY_KINDS)
    {
      LinkReads(e);
      OutgoingIsOut(f, next, edges, e);
    }
  }

  datatype Areas = Areas(body: set<string>, caught: set<string>, finally: set<string>)

  /** Body and Catch are entered from the TRY step, Finally also from Body and Catch. */
  ghost predicate EntersRight(e: Edge, try: string, p: TryParts, a: Areas)
    requires Joined(e)
  {
    && (To(e) in a.body && From(e) !in a.body ==>
          From(e) == try && To(e) == p.body && StringValue(e.kind) == Some("try_body"))
    && (To(e) in a.caught && From(e) !in a.caught ==>
          From(e) == try && To(e) == p.caught && StringValue(e.kind) == Some("try_catch"))
    && (To(e) in a.finally && From(e) !in a.finally ==>
          To(e) == p.finally &&
          (From(e) in a.body + a.caught || (From(e) == try && StringValue(e.kind) == Some("try_finally"))))
  }

  ghost predicate RegionsAre(g: Arcs, p: TryParts, a: Areas) {
    && RegionIs(g, p.body, p.finally, a.body) && RegionIs(g, p.caught, p.finally, a.caught)
    && RegionIs(g, p.finally, p.done, a.finally)
  }

  lemma EntryHolds(g: Arcs, try: string, p: TryParts, a: Areas, e: Edge)
    requires RegionsAre(g, p, a) && Joined(e) && EntersRight(e, try, p, a)
    ensures EnteredBy(try, p.body, p.finally, "try_body", e, g)
    ensures EnteredBy(try, p.caught, p.finally, "try_catch", e, g)
    ensures Converges(p, e, g) || EnteredBy(try, p.finally, p.done, "try_finally", e, g)
  {
  }

  lemma PartMeans(entry: string, boundary: string, steps: seq<Step>, edges: seq<Edge>, area: set<string>)
    requires RegionIs(EdgeArcs(edges), entry, boundary, area) && AllReach(EdgeArcs(edges), area, boundary)
    ensures PartOk(entry, boundary, steps, edges) <==> NoneOf(steps, area, TRY_CATCH)
  {
    var g := EdgeArcs(edges);
    forall k | k in area
      ensures InRegion(g, entry, Some(boundary), k) && Reaches(g, k, boundary)
    {
    }
  }

  lemma RegionsApart(g: Arcs, s: string, t: string, u: string, v: string, a: set<string>, b: set<string>)
    requires RegionIs(g, s, t, a) && RegionIs(g, u, v, b) && a !! b
    ensures forall k :: !(InRegion(g, s, Some(t), k) && InRegion(g, u, Some(v), k))
  {
  }

  lemma TryRegionsMeans(try: string, p: TryParts, steps: seq<Step>, edges: seq<Edge>, a: Areas)
    requires RegionsAre(EdgeArcs(edges), p, a) && Distinct([p.body, p.caught, p.finally, p.done])
    requires a.body !! a.caught && a.body !! a.finally && a.caught !! a.finally
    requires forall e | e in edges && Joined(e) :: EntersRight(e, try, p, a)
    ensures TryRegions(try, p, steps, edges) <==>
      PartOk(p.body, p.finally, steps, edges) && PartOk(p.caught, p.finally, steps, edges) &&
      PartOk(p.finally, p.done, steps, edges)
  {
    var g := EdgeArcs(edges);
    RegionsApart(g, p.body, p.finally, p.caught, p.finally, a.body, a.caught);
    RegionsApart(g, p.body, p.finally, p.finally, p.done, a.body, a.finally);
    RegionsApart(g, p.caught, p.finally, p.finally, p.done, a.caught, a.finally);
    assert TryEntries(try, p, edges) by {
      forall e | e in edges && Joined(e) { EntryHolds(g, try, p, a, e); }
    }
  }

  lemma OutOfTry(f: Flow, next: string, e: Edge)
    requires f.Try? && WellNamed(f) && Separate(f) && PlainName(next) && next !in KeysIn(f) && e in Out(f, next)
    ensures GoodLink(e) && e.from.s == f.key
    ensures e.to.s in KeysIn(f.body) ==> e.to.s == Entry(f.body) && e.kind.s == "try_body"
    ensures e.to.s in KeysIn(f.caught) ==> e.to.s == Entry(f.caught) && e.kind.s == "try_catch"
    ensures e.to.s in KeysIn(f.finally) ==> e.to.s == Entry(f.finally) && e.kind.s == "try_finally"
  {
    OutEnds(f, next, e);
    EntryInside(f.body);
    EntryInside(f.caught);
    EntryInside(f.finally);
  }

  lemma InOfTry(f: Flow, next: string, e: Edge)
    requires f.Try? && WellNamed(f) && Separate(f) && PlainName(next) && next !in KeysIn(f) && e in Inner(f, next)
    ensures GoodLink(e)
    ensures e.to.s in KeysIn(f.body) ==> e.from.s in KeysIn(f.body)
    ensures e.to.s in KeysIn(f.caught) ==> e.from.s in KeysIn(f.caught)
    ensures e.to.s in KeysIn(f.finally) && e.from.s !in KeysIn(f.finally) ==>
      e.to.s == Entry(f.finally) && e.from.s in KeysIn(f.body) + KeysIn(f.caught)
  {
    var meet := Entry(f.finally);
    EntryIsPlain(f.finally);
    EntryInside(f.finally);
    AllEnds(f.body, meet);
    AllEnds(f.caught, meet);
    AllEnds(f.finally, next);
  }

  function AreasOf(f: Flow): Areas
    requires f.Try?
  {
    Areas(KeysIn(f.body), KeysIn(f.caught), KeysIn(f.finally))
  }

  function PartsOf(f: Flow, next: string): TryParts
    requires f.Try?
  {
    TryParts(Entry(f.body), Entry(f.caught), Entry(f.finally), next)
  }

  lemma TryEntered(f: Flow, next: string, edges: seq<Edge>, e: Edge)
    requires f.Try? && Embedded(f, next, edges) && e in edges
    ensures Joined(e) && EntersRight(e, f.key, PartsOf(f, next), AreasOf(f))
  {
    LinkReads(e);
    if e in Out(f, next) {
      OutOfTry(f, next, e);
    } else if e in Inner(f, next) {
      InOfTry(f, next, e);
    } else {
      assert e !in Edges(f, next) && e.from.s !in KeysIn(f);
    }
  }

  lemma AllEntered(f: Flow, next: string, edges: seq<Edge>, p: TryParts, a: Areas)
    requires f.Try? && Embedded(f, next, edges) && p == PartsOf(f, next) && a == AreasOf(f)
    ensures forall e | e in edges && Joined(e) :: EntersRight(e, f.key, p, a)
  {
    forall e | e in edges && Joined(e) { TryEntered(f, next, edges, e); }
  }

  lemma PartExactly(part: Flow, stop: string, steps: seq<Step>, keys: set<string>, edges: seq<Edge>)
    requires Setting(steps, keys, edges, part, stop)
    ensures PartOk(Entry(part), stop, steps, edges) <==> Free(part, TRY_CATCH)
    ensures RegionIs(EdgeArcs(edges), Entry(part), stop, KeysIn(part))
  {
    EmbeddedRegion(part, stop, edges);
    FreeMeans(part, TRY_CATCH, steps);
    PartMeans(Entry(part), stop, steps, edges, KeysIn(part));
  }

  lemma EntriesDiffer(f: Flow, next: string)
    requires f.Try? && Separate(f) && next !in KeysIn(f)
    ensures Distinct([Entry(f.body), Entry(f.caught), Entry(f.finally), next])
  {
    EntryInside(f.body);
    EntryInside(f.caught);
    EntryInside(f.finally);
  }

  lemma TryRegionsExactly(f: Flow, next: string, steps: seq<Step>, keys: set<string>, edges: seq<Edge>, p: TryParts)
    requires f.Try? && Setting(steps, keys, edges, f, next)
    requires Setting(steps, keys, edges, f.body, Entry(f.finally))
    requires Setting(steps, keys, edges, f.caught, Entry(f.finally)) && Setting(steps, keys, edges, f.finally, next)
    requires p == PartsOf(f, next)
    ensures TryRegions(f.key, p, steps, edges) <==>
      Free(f.body, TRY_CATCH) && Free(f.caught, TRY_CATCH) && Free(f.finally, TRY_CATCH)
  {
    AllEntered(f, next, edges, p, AreasOf(f));
    EntriesDiffer(f, next);
    PartExactly(f.body, p.finally, steps, keys, edges);
    PartExactly(f.caught, p.finally, steps, keys, edges);
    PartExactly(f.finally, next, steps, keys, edges);
    TryRegionsMeans(f.key, p, steps, edges, AreasOf(f));
  }

  /** The edges of a TRY step, one of each kind, and where they lead. */
  ghost predicate OneOfEach(out: seq<Edge>, p: TryParts) {
    && (forall e | e in out :: KindIn(e, TRY_KINDS))
    && |OfKind(out, "try_body")| == |OfKind(out, "try_catch")| == 1
    && |OfKind(out, "try_finally")| == |OfKind(out, "try_done")| == 1
    && StringValue(OfKind(out, "try_body")[0].to) == Some(p.body)
    && StringValue(OfKind(out, "try_catch")[0].to) == Some(p.caught)
    && StringValue(OfKind(out, "try_finally")[0].to) == Some(p.finally)
    && StringValue(OfKind(out, "try_done")[0].to) == Some(p.done)
  }

  lemma TryOkMeans(step: Step, steps: seq<Step>, keys: set<string>, edges: seq<Edge>, p: TryParts)
    requires OneOfEach(Outgoing(step.key, edges), p) && p.body in keys && p.caught in keys && p.done in keys
    ensures TryOk(step, steps, keys, edges) <==> TryRegions(step.key, p, steps, edges)
  {
  }

  lemma TryTargets(f: Flow, next: string)
    requires f.Try? && WellNamed(f) && PlainName(next)
    ensures var mine := Out(f, next);
      && |mine| == 4 && StringValue(mine[0].to) == Some(Entry(f.body))
      && StringValue(mine[1].to) == Some(Entry(f.caught))
      && StringValue(mine[2].to) == Some(Entry(f.finally)) && StringValue(mine[3].to) == Some(next)
  {
    EntryIsPlain(f.body);
    EntryIsPlain(f.caught);
    EntryIsPlain(f.finally);
    TrimTight(Entry(f.body));
    TrimTight(Entry(f.caught));
    TrimTight(Entry(f.finally));
    TrimTight(next);
  }

  lemma OneOfEachFrom(out: seq<Edge>, mine: seq<Edge>, p: TryParts)
    requires (forall e | e in out :: KindIn(e, TRY_KINDS)) && |mine| == 4
    requires OfKind(out, "try_body") == [mine[0]] && OfKind(out, "try_catch") == [mine[1]]
    requires OfKind(out, "try_finally") == [mine[2]] && OfKind(out, "try_done") == [mine[3]]
    requires StringValue(mine[0].to) == Some(p.body) && StringValue(mine[1].to) == Some(p.caught)
    requires StringValue(mine[2].to) == Some(p.finally) && StringValue(mine[3].to) == Some(p.done)
    ensures OneOfEach(out, p)
  {
  }

  lemma TryLeads(f: Flow, next: string, edges: seq<Edge>)
    requires f.Try? && Embedded(f, next, edges) && AllDiffer(edges)
    ensures OneOfEach(Outgoing(f.key, edges), PartsOf(f, next))
  {
    TryKindsOf(f, next, edges, Out(f, next));
    TryKindsOnly(f, next, edges);
    TryTargets(f, next);
    OneOfEachFrom(Outgoing(f.key, edges), Out(f, next), PartsOf(f, next));
  }

  lemma TryExactly(f: Flow, next: string, steps: seq<Step>, keys: set<string>, edges: seq<Edge>)
    requires f.Try? && Setting(steps, keys, edges, f, next)
    requires Setting(steps, keys, edges, f.body, Entry(f.finally))
    requires Setting(steps, keys, edges, f.caught, Entry(f.finally)) && Setting(steps, keys, edges, f.finally, next)
    ensures TryOk(Plain(f.key, TRY_CATCH), steps, keys, edges) <==>
      Free(f.body, TRY_CATCH) && Free(f.caught, TRY_CATCH) && Free(f.finally, TRY_CATCH)
  {
    EntryInside(f.body);
    EntryInside(f.caught);
    TryLeads(f, next, edges);
    TryRegionsExactly(f, next, steps, keys, edges, PartsOf(f, next));
    TryOkMeans(Plain(f.key, TRY_CATCH), steps, keys, edges, PartsOf(f, next));
  }

  ghost predicate StepsOk(some: seq<Step>, steps: seq<Step>, keys: set<string>, edges: seq<Edge>) {
    forall s | s in some :: StepOk(s, steps, keys, edges)
  }

  lemma StepsOkJoin(a: seq<Step>, b: seq<Step>, steps: seq<Step>, keys: set<string>, edges: seq<Edge>)
    ensures StepsOk(a + b, steps, keys, edges) <==> StepsOk(a, steps, keys, edges) && StepsOk(b, steps, keys, edges)
  {
    assert forall s | s in a :: s in a + b;
    assert forall s | s in b :: s in a + b;
  }

  lemma OneStepOk(key: string, kind: string, steps: seq<Step>, keys: set<string>, edges: seq<Edge>)
    ensures StepsOk([Plain(key, kind)], steps, keys, edges) <==> StepOk(Plain(key, kind), steps, keys, edges)
  {
    assert Plain(key, kind) in [Plain(key, kind)];
  }

  lemma OrdinaryOk(key: string, kind: string, steps: seq<Step>, keys: set<string>, edges: seq<Edge>)
    requires OrdinaryKind(kind)
    ensures StepOk(Plain(key, kind), steps, keys, edges)
  {
  }

  lemma ControlOk(key: string, steps: seq<Step>, keys: set<string>, edges: seq<Edge>)
    ensures OrdinaryKind("if")
    ensures StepOk(Plain(key, FOR_EACH), steps, keys, edges) <==> LoopOk(Plain(key, FOR_EACH), steps, keys, edges)
    ensures StepOk(Plain(key, TRY_CATCH), steps, keys, edges) <==> TryOk(Plain(key, TRY_CATCH), steps, keys, edges)
  {
    assert |"if"| == 2 && FOR_EACH[0] == 'f' && TRY_CATCH[0] == 't' && CONDITIONAL[0] == 'c';
  }

  lemma ThenSettings(f: Flow, next: string, steps: seq<Step>, keys: set<string>, edges: seq<Edge>)
    requires f.Then? && Setting(steps, keys, edges, f, next)
    ensures Setting(steps, keys, edges, f.first, Entry(f.second)) && Setting(steps, keys, edges, f.second, next)
  {
    EntryInside(f.second);
    ThenParts(f, next);
    PartSetting(steps, keys, edges, f, next, f.first, Entry(f.second));
    PartSetting(steps, keys, edges, f, next, f.second, next);
  }

  lemma IfSettings(f: Flow, next: string, steps: seq<Step>, keys: set<string>, edges: seq<Edge>)
    requires f.If? && Setting(steps, keys, edges, f, next)
    ensures Setting(steps, keys, edges, f.yes, next) && Setting(steps, keys, edges, f.no, next)
  {
    IfParts(f, next);
    PartSetting(steps, keys, edges, f, next, f.yes, next);
    PartSetting(steps, keys, edges, f, next, f.no, next);
  }

  lemma LoopSetting(f: Flow, next: string, steps: seq<Step>, keys: set<string>, edges: seq<Edge>)
    requires f.Loop? && Setting(steps, keys, edges, f, next)
    ensures Setting(steps, keys, edges, f.body, next)
  {
    LoopPart(f, next);
    PartSetting(steps, keys, edges, f, next, f.body, next);
  }

  lemma TrySettings(f: Flow, next: string, steps: seq<Step>, keys: set<string>, edges: seq<Edge>)
    requires f.Try? && Setting(steps, keys, edges, f, next)
    ensures Setting(steps, keys, edges, f.body, Entry(f.finally))
    ensures Setting(steps, keys, edges, f.caught, Entry(f.finally)) && Setting(steps, keys, edges, f.finally, next)
  {
    EntryInside(f.finally);
    TrySide(f, next, f.body, f.caught);
    TrySide(f, next, f.caught, f.body);
    TryEnd(f, next);
    PartSetting(steps, keys, edges, f, next, f.body, Entry(f.finally));
    PartSetting(steps, keys, edges, f, next, f.caught, Entry(f.finally));
    PartSetting(steps, keys, edges, f, next, f.finally, next);
  }

  /** Wherever the flow stands, its steps are accepted if and only if it is nested as allowed. */
  lemma {:induction false} StepsExactly(f: Flow, next: string, steps: seq<Step>, keys: set<string>, edges: seq<Edge>)
    requires Setting(steps, keys, edges, f, next)
    ensures StepsOk(Steps(f), steps, keys, edges) <==> Nested(f)
    decreases f
  {
    match f
    case Task(key, kind) =>
      OneStepOk(key, kind, steps, keys, edges);
      OrdinaryOk(key, kind, steps, keys, edges);
    case Then(first, second) =>
      ThenSettings(f, next, steps, keys, edges);
      StepsExactly(first, Entry(second), steps, keys, edges);
      StepsExactly(second, next, steps, keys, edges);
      StepsOkJoin(Steps(first), Steps(second), steps, keys, edges);
    case If(key, yes, no) =>
      IfSettings(f, next, steps, keys, edges);
      StepsExactly(yes, next, steps, keys, edges);
      StepsExactly(no, next, steps, keys, edges);
      ControlOk(key, steps, keys, edges);
      OneStepOk(key, "if", steps, keys, edges);
      OrdinaryOk(key, "if", steps, keys, edges);
      StepsOkJoin([Plain(key, "if")] + Steps(yes), Steps(no), steps, keys, edges);
      StepsOkJoin([Plain(key, "if")], Steps(yes), steps, keys, edges);
    case Loop(key, body) =>
      LoopSetting(f, next, steps, keys, edges);
      StepsExactly(body, next, steps, keys, edges);
      LoopExactly(f, next, steps, keys, edges);
      ControlOk(key, steps, keys, edges);
      OneStepOk(key, FOR_EACH, steps, keys, edges);
      StepsOkJoin([Plain(key, FOR_EACH)], Steps(body), steps, keys, edges);
    case Try(key, body, caught, finally) => TryStepsExactly(f, next, steps, keys, edges);
  }

  lemma {:induction false} TryStepsExactly(f: Flow, next: string, steps: seq<Step>, keys: set<string>, edges: seq<Edge>)
    requires f.Try? && Setting(steps, keys, edges, f, next)
    ensures StepsOk(Steps(f), steps, keys, edges) <==> Nested(f)
    decreases f, 0
  {
    var Try(key, body, caught, finally) := f;
    var head := [Plain(key, TRY_CATCH)];
    TrySettings(f, next, steps, keys, edges);
    StepsExactly(body, Entry(finally), steps, keys, edges);
    StepsExactly(caught, Entry(finally), steps, keys, edges);
    StepsExactly(finally, next, steps, keys, edges);
    TryExactly(f, next, steps, keys, edges);
    ControlOk(key, steps, keys, edges);
    OneStepOk(key, TRY_CATCH, steps, keys, edges);
    StepsOkJoin(head + Steps(body) + Steps(caught), Steps(finally), steps, keys, edges);
    StepsOkJoin(head + Steps(body), Steps(caught), steps, keys, edges);
    StepsOkJoin(head, Steps(body), steps, keys, edges);
  }
}
