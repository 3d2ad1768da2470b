/** The graph validator: it reports no issue exactly for the accepted graphs. */
module GraphValidator {
  import opened Text
  import opened Digraph
  import opened Traversal
  import opened GraphModel

  method StepIssues(steps: seq<Step>) returns (issues: seq<Issue>, keys: set<string>)
    ensures issues == [] <==> DistinctKeys(steps) && DistinctIds(steps)
    ensures keys == Elems(Keys(steps))
  {
    issues, keys := [], {};
    var ids: set<string> := {};
    for i := 0 to |steps|
      invariant keys == set j | 0 <= j < i :: steps[j].key
      invariant ids == set j | 0 <= j < i && HasId(steps[j]) :: steps[j].id.value
      invariant issues == [] <==> DistinctKeys(steps[..i]) && DistinctIds(steps[..i])
    {
      var step := steps[i];
      assert steps[..i + 1] == steps[..i] + [step];
      if HasId(step) && step.id.value in ids {
        issues := issues + [Issue("duplicate_step_id", Some(step.key))];
      }
      if HasId(step) { ids := ids + {step.id.value}; }
      if step.key in keys {
        issues := issues + [Issue("duplicate_step_key", Some(step.key))];
      }
      keys := keys + {step.key};
    }
    assert steps[..|steps|] == steps;
    forall j | 0 <= j < |steps|
      ensures steps[j].key in Keys(steps)
    {
      assert Keys(steps)[j] == steps[j].key;
    }
  }

  const INVALID_EDGE := "invalid_edge"

  predicate ReportsInvalidEdge(issues: seq<Issue>) {
    exists issue :: issue in issues && issue.code == INVALID_EDGE
  }

  lemma ReportsInEither(a: seq<Issue>, b: seq<Issue>)
    ensures ReportsInvalidEdge(a + b) <==> ReportsInvalidEdge(a) || ReportsInvalidEdge(b)
  {
    assert forall x :: x in a + b <==> x in a || x in b;
  }

  ghost function IdsBefore(edges: seq<Edge>, i: nat): set<string>
    requires i <= |edges|
  {
    set j | 0 <= j < i :: EdgeId(edges[j])
  }

  ghost function HandlesBefore(edges: seq<Edge>, keys: set<string>, i: nat): set<string>
    requires i <= |edges|
  {
    set j | 0 <= j < i && ValidEdge(edges[j], keys) :: HandleKey(edges[j])
  }

  ghost predicate OkBefore(edges: seq<Edge>, keys: set<string>, i: nat)
    requires i <= |edges|
  {
    forall j | 0 <= j < i :: EdgeOkAt(edges, keys, j)
  }

  ghost predicate ValidBefore(edges: seq<Edge>, keys: set<string>, i: nat)
    requires i <= |edges|
  {
    forall j | 0 <= j < i :: ValidEdge(edges[j], keys)
  }

  lemma BeforeGrows(edges: seq<Edge>, keys: set<string>, i: nat)
    requires i < |edges|
    ensures IdsBefore(edges, i + 1) == IdsBefore(edges, i) + {EdgeId(edges[i])}
    ensures HandlesBefore(edges, keys, i + 1) ==
      HandlesBefore(edges, keys, i) + (if ValidEdge(edges[i], keys) then {HandleKey(edges[i])} else {})
    ensures ValidBefore(edges, keys, i + 1) <==> ValidBefore(edges, keys, i) && ValidEdge(edges[i], keys)
  {
  }

  lemma OkGrows(edges: seq<Edge>, keys: set<string>, i: nat)
    requires i < |edges|
    ensures OkBefore(edges, keys, i + 1) <==>
      && OkBefore(edges, keys, i)
      && ValidEdge(edges[i], keys) && From(edges[i]) != To(edges[i])
      && EdgeId(edges[i]) !in IdsBefore(edges, i) && HandleKey(edges[i]) !in HandlesBefore(edges, keys, i)
  {
    assert OkBefore(edges, keys, i + 1) <==> OkBefore(edges, keys, i) && EdgeOkAt(edges, keys, i);
  }

  method OneEdgeIssues(e: Edge, keys: set<string>, seen: set<string>, handles: set<string>) returns (issues: seq<Issue>)
    ensures issues == [] <==>
      ValidEdge(e, keys) && From(e) != To(e) && EdgeId(e) !in seen && HandleKey(e) !in handles
    ensures ReportsInvalidEdge(issues) <==> !ValidEdge(e, keys)
    ensures Issue("duplicate_edge", StringValue(e.from)) in issues <==> EdgeId(e) in seen
    ensures Issue("self_loop", StringValue(e.from)) in issues <==> ValidEdge(e, keys) && From(e) == To(e)
    ensures Issue("duplicate_output", StringValue(e.from)) in issues <==> ValidEdge(e, keys) && HandleKey(e) in handles
  {
    issues := [];
    if EdgeId(e) in seen {
      issues := issues + [Issue("duplicate_edge", StringValue(e.from))];
    }
    if !ValidEdge(e, keys) {
      issues := issues + [Issue(INVALID_EDGE, StringValue(e.from))];
      assert issues[|issues| - 1] in issues;
      return;
    }
    if From(e) == To(e) {
      issues := issues + [Issue("self_loop", Some(From(e)))];
    }
    if HandleKey(e) in handles {
      issues := issues + [Issue("duplicate_output", Some(From(e)))];
    }
  }

  method EdgeIssuesAt(edges: seq<Edge>, keys: set<string>, i: nat, seen: set<string>, handles: set<string>)
    returns (issues: seq<Issue>, seen': set<string>, handles': set<string>)
    requires i < |edges| && seen == IdsBefore(edges, i) && handles == HandlesBefore(edges, keys, i)
    ensures OkBefore(edges, keys, i + 1) <==> OkBefore(edges, keys, i) && issues == []
    ensures ValidBefore(edges, keys, i + 1) <==> ValidBefore(edges, keys, i) && !ReportsInvalidEdge(issues)
    ensures seen' == IdsBefore(edges, i + 1) && handles' == HandlesBefore(edges, keys, i + 1)
  {
    issues := OneEdgeIssues(edges[i], keys, seen, handles);
    BeforeGrows(edges, keys, i);
    OkGrows(edges, keys, i);
    seen' := seen + {EdgeId(edges[i])};
    handles' := if ValidEdge(edges[i], keys) then handles + {HandleKey(edges[i])} else handles;
  }

  method EdgeIssues(edges: seq<Edge>, keys: set<string>) returns (issues: seq<Issue>)
    ensures issues == [] <==> EdgesOk(edges, keys)
    ensures ReportsInvalidEdge(issues) <==> !forall e | e in edges :: ValidEdge(e, keys)
  {
    issues := [];
    var seen, handles := {}, {};
    for i := 0 to |edges|
      invariant issues == [] <==> OkBefore(edges, keys, i)
      invariant seen == IdsBefore(edges, i) && handles == HandlesBefore(edges, keys, i)
      invariant ReportsInvalidEdge(issues) <==> !ValidBefore(edges, keys, i)
    {
      var found;
      found, seen, handles := EdgeIssuesAt(edges, keys, i, seen, handles);
      ReportsInEither(issues, found);
      issues := issues + found;
    }
    assert EdgesOk(edges, keys) <==> OkBefore(edges, keys, |edges|);
  }

  /** Exactly the steps that the entry does not reach, in order. */
  method UnreachableSteps(entry: string, keys: seq<string>, next: Adjacency) returns (missing: seq<string>)
    ensures forall k :: k in missing <==> k in keys && !Reaches(ArcsOf(next), entry, k)
  {
    var seen := Descendants(entry, None, next);
    missing := [];
    for i := 0 to |keys|
      invariant forall k :: k in missing <==> k in keys[..i] && k !in seen
    {
      if keys[i] !in seen { missing := missing + [keys[i]]; }
    }
    forall k { RegionWithoutStop(ArcsOf(next), entry, k); }
  }

  function Labelled(code: string, keys: seq<string>): (issues: seq<Issue>)
    ensures |issues| == |keys|
  {
    seq(|keys|, i requires 0 <= i < |keys| => Issue(code, Some(keys[i])))
  }

  method ForeignKinds(out: seq<Edge>, kinds: set<string>, code: string) returns (issues: seq<Issue>)
    ensures issues == [] <==> forall e | e in out :: KindIn(e, kinds)
  {
    issues := [];
    for i := 0 to |out|
      invariant issues == [] <==> forall e | e in out[..i] :: KindIn(e, kinds)
    {
      assert out[..i + 1] == out[..i] + [out[i]];
      if !KindIn(out[i], kinds) { issues := issues + [Issue(code, StringValue(out[i].from))]; }
    }
    assert out[..|out|] == out;
  }

  /**
   What the validator asks of the steps of a region: none has the forbidden kind, each reaches
   the boundary, and no edge escapes. The last can never fail, because the region is closed.
   */
  method RegionIssues(region: seq<string>, ghost start: string, boundary: string, forbidden: string, escape: string,
                      steps: seq<Step>, edges: seq<Edge>, next: Adjacency) returns (issues: seq<Issue>)
    requires ArcsOf(next) == EdgeArcs(edges)
    requires forall k :: k in region <==> InRegion(EdgeArcs(edges), start, Some(boundary), k)
    ensures issues == [] <==>
      forall k | InRegion(EdgeArcs(edges), start, Some(boundary), k) ::
        KindOf(steps, k) != Some(forbidden) && Reaches(EdgeArcs(edges), k, boundary)
  {
    issues := [];
    for i := 0 to |region|
      invariant issues == [] <==>
        forall j | 0 <= j < i ::
            KindOf(steps, region[j]) != Some(forbidden) && Reaches(EdgeArcs(edges), region[j], boundary)
    {
      var key := region[i];
      if KindOf(steps, key) == Some(forbidden) { issues := issues + [Issue("nested_" + forbidden, Some(key))]; }
      var ok := CanReach(key, boundary, next);
      if !ok { issues := issues + [Issue(escape, Some(key))]; }
      var escapes := EscapeIssues(key, region, start, boundary, edges, escape);
      issues := issues + escapes;
    }
  }

  method EscapeIssues(key: string, region: seq<string>, ghost start: string, boundary: string, edges: seq<Edge>,
      escape: string)
    returns (issues: seq<Issue>)
    requires key in region
    requires forall k :: k in region <==> InRegion(EdgeArcs(edges), start, Some(boundary), k)
    ensures issues == []
  {
    issues := [];
    var out := Outgoing(key, edges);
    for i := 0 to |out|
      invariant issues == []
    {
      var to := StringValue(out[i].to);
      if to.Some? {
        assert out[i] in out;
        assert (key, to.value) in EdgeArcs(edges);
        if to.value != boundary {
          RegionClosed(EdgeArcs(edges), start, Some(boundary), key, to.value);
        }
        if to.value != boundary && to.value !in region {
          issues := issues + [Issue(escape, Some(key))];
        }
      }
    }
  }

  method CountIssues(found: seq<Edge>, low: nat, code: string, key: string) returns (issues: seq<Issue>)
    requires low <= 1
    ensures issues == [] <==> low <= |found| <= 1
  {
    issues := if low <= |found| <= 1 then [] else [Issue(code, Some(key))];
  }

  method ValidateForEach(step: Step, steps: seq<Step>, keys: set<string>, edges: seq<Edge>, next: Adjacency)
    returns (issues: seq<Issue>)
    requires ArcsOf(next) == EdgeArcs(edges)
    ensures issues == [] <==> LoopOk(step, steps, keys, edges)
  {
    var out := Outgoing(step.key, edges);
    var bodies, dones := OfKind(out, "for_each_body"), OfKind(out, "for_each_done");
    var a := CountIssues(bodies, 1, "invalid_for_each_body", step.key);
    var b := CountIssues(dones, 1, "invalid_for_each_done", step.key);
    var foreign := ForeignKinds(out, {"for_each_body", "for_each_done"}, "invalid_for_each_edge");
    issues := a + b + foreign;
    if |bodies| != 1 || |dones| != 1 { return; }
    var body, done := StringValue(bodies[0].to), StringValue(dones[0].to);
    if body.None? || done.None? || body.value !in keys || done.value !in keys { return; }
    var more := LoopRegionIssues(step.key, body.value, done.value, steps, edges, next);
    issues := issues + more;
  }

  method LoopRegionIssues(loop: string, body: string, done: string, steps: seq<Step>, edges: seq<Edge>, next: Adjacency)
    returns (issues: seq<Issue>)
    requires ArcsOf(next) == EdgeArcs(edges)
    ensures issues == [] <==> LoopRegion(loop, body, done, steps, edges)
  {
    if body == done { return [Issue("empty_for_each_body", Some(loop))]; }
    var region := Descendants(body, Some(done), next);
    RegionStart(EdgeArcs(edges), body, Some(done));
    issues := [];
    if region == [] { issues := issues + [Issue("empty_for_each_body", Some(loop))]; }
    if loop in region { issues := issues + [Issue("for_each_back_edge", Some(loop))]; }
    var inside := RegionIssues(region, body, done, FOR_EACH, "for_each_body_escape", steps, edges, next);
    var entries := EntryIssues(loop, body, "for_each_body", region, [], "", edges, "for_each_external_entry");
    issues := issues + inside + entries;
  }

  /**
   An edge that enters `region` from outside is the edge of kind `kind` from `header` to `entry`,
   or an edge to `merge` from a step in `sources`.
   */
  predicate EntersAsAllowed(header: string, entry: string, kind: string, region: seq<string>,
                            sources: seq<string>, merge: string, e: Edge)
  {
    Joined(e) && To(e) in region && From(e) !in region ==>
      || (From(e) == header && To(e) == entry && StringValue(e.kind) == Some(kind))
      || (To(e) == merge && From(e) in sources)
  }

  method EntryIssues(header: string, entry: string, kind: string, region: seq<string>, sources: seq<string>,
      merge: string,
                     edges: seq<Edge>, code: string) returns (issues: seq<Issue>)
    ensures issues == [] <==> forall e | e in edges :: EntersAsAllowed(header, entry, kind, region, sources, merge, e)
  {
    issues := [];
    for i := 0 to |edges|
      invariant issues == [] <==>
        forall j | 0 <= j < i :: EntersAsAllowed(header, entry, kind, region, sources, merge, edges[j])
    {
      var e := edges[i];
      if !Joined(e) || To(e) !in region || From(e) in region { continue; }
      var structured := From(e) == header && To(e) == entry && StringValue(e.kind) == Some(kind);
      var converging := To(e) == merge && From(e) in sources;
      if !structured && !converging { issues := issues + [Issue(code, Some(To(e)))]; }
    }
  }

  method ValidateTryCatch(step: Step, steps: seq<Step>, keys: set<string>, edges: seq<Edge>, next: Adjacency)
    returns (issues: seq<Issue>)
    requires ArcsOf(next) == EdgeArcs(edges)
    ensures issues == [] <==> TryOk(step, steps, keys, edges)
  {
    var out := Outgoing(step.key, edges);
    var bodies, catches := OfKind(out, "try_body"), OfKind(out, "try_catch");
    var finals, dones := OfKind(out, "try_finally"), OfKind(out, "try_done");
    var a := CountIssues(bodies, 1, "invalid_try_body", step.key);
    var b := CountIssues(catches, 1, "invalid_try_catch", step.key);
    var c := CountIssues(finals, 0, "invalid_try_finally", step.key);
    var d := CountIssues(dones, 1, "invalid_try_done", step.key);
    var foreign := ForeignKinds(out, TRY_KINDS, "invalid_try_edge");
    issues := a + b + c + d + foreign;
    var body, caught := FirstTarget(bodies), FirstTarget(catches);
    var finally, done := FirstTarget(finals), FirstTarget(dones);
    if body.None? || caught.None? || done.None? || body.value !in keys || caught.value !in keys || done.value !in keys {
      return;
    }
    var more := TryRegionIssues(step.key, body.value, caught.value, finally, done.value, steps, edges, next);
    issues := issues + more;
  }

  method TryRegionIssues(try: string, body: string, caught: string, finally: Option<string>, done: string,
                         steps: seq<Step>, edges: seq<Edge>, next: Adjacency) returns (issues: seq<Issue>)
    requires ArcsOf(next) == EdgeArcs(edges)
    ensures issues == [] <==>
      finally.Some? && TryRegions(try, TryParts(body, caught, finally.value, done), steps, edges)
  {
    var entries := [body, caught] + (if finally.Some? then [finally.value] else []) + [done];
    DistinctSize(entries);
    assert finally.Some? ==> entries == [body, caught, finally.value, done];
    assert finally.None? ==> entries == [body, caught, done];
    if |Elems(entries)| != |entries| {
      return [Issue("try_region_overlap", Some(try))];
    }
    assert entries[0] == body && entries[1] == caught && entries[|entries| - 1] == done &&
      (finally.Some? ==> entries[2] == finally.value);
    var boundary := if finally.Some? then finally.value else done;
    var bodySteps := Descendants(body, Some(boundary), next);
    var catchSteps := Descendants(caught, Some(boundary), next);
    var finallySteps := [];
    if finally.Some? { finallySteps := Descendants(finally.value, Some(done), next); }
    var o := OverlapIssues(bodySteps, catchSteps, finallySteps);
    var x := EntryIssues(try, body, "try_body", bodySteps, [], "", edges, "try_external_entry");
    var y := EntryIssues(try, caught, "try_catch", catchSteps, [], "", edges, "try_external_entry");
    var a := PartIssues("empty_try_body", try, bodySteps, body, boundary, steps, edges, next);
    var b := PartIssues("empty_try_catch", try, catchSteps, caught, boundary, steps, edges, next);
    if finally.None? {
      return a + b + [Issue("empty_try_finally", Some(try))] + o + x + y;
    }
    var c := PartIssues("empty_try_finally", try, finallySteps, finally.value, done, steps, edges, next);
    var z := EntryIssues(try, finally.value, "try_finally", finallySteps,
        bodySteps + catchSteps, finally.value, edges, "try_external_entry");
    issues := a + b + c + o + x + y + z;
    TryEntriesMeet(try, TryParts(body, caught, finally.value, done), edges, bodySteps, catchSteps, finallySteps);
  }

  /** The three entry checks together say how a TRY_CATCH may be entered. */
  lemma TryEntriesMeet(try: string, p: TryParts, edges: seq<Edge>, body: seq<string>, caught: seq<string>,
      finally: seq<string>)
    requires forall k :: k in body <==> InRegion(EdgeArcs(edges), p.body, Some(p.finally), k)
    requires forall k :: k in caught <==> InRegion(EdgeArcs(edges), p.caught, Some(p.finally), k)
    requires forall k :: k in finally <==> InRegion(EdgeArcs(edges), p.finally, Some(p.done), k)
    ensures TryEntries(try, p, edges) <==> forall e | e in edges ::
      && EntersAsAllowed(try, p.body, "try_body", body, [], "", e)
      && EntersAsAllowed(try, p.caught, "try_catch", caught, [], "", e)
      && EntersAsAllowed(try, p.finally, "try_finally", finally, body + caught, p.finally, e)
  {
    forall e | e in edges && Joined(e)
      ensures EntersAsAllowed(try, p.body, "try_body", body, [], "", e) <==>
        EnteredBy(try, p.body, p.finally, "try_body", e, EdgeArcs(edges))
      ensures EntersAsAllowed(try, p.caught, "try_catch", caught, [], "", e) <==>
        EnteredBy(try, p.caught, p.finally, "try_catch", e, EdgeArcs(edges))
      ensures EntersAsAllowed(try, p.finally, "try_finally", finally, body + caught, p.finally, e) <==>
        Converges(p, e, EdgeArcs(edges)) || EnteredBy(try, p.finally, p.done, "try_finally", e, EdgeArcs(edges))
    {
    }
  }

  method PartIssues(code: string, try: string, region: seq<string>, entry: string, boundary: string,
                    steps: seq<Step>, edges: seq<Edge>, next: Adjacency) returns (issues: seq<Issue>)
    requires ArcsOf(next) == EdgeArcs(edges) && entry != boundary
    requires forall k :: k in region <==> InRegion(EdgeArcs(edges), entry, Some(boundary), k)
    ensures issues == [] <==> PartOk(entry, boundary, steps, edges)
  {
    RegionStart(EdgeArcs(edges), entry, Some(boundary));
    issues := if region == [] then [Issue(code, Some(try))] else [];
    var inside := RegionIssues(region, entry, boundary, TRY_CATCH, "try_region_escape", steps, edges, next);
    issues := issues + inside;
  }

  predicate Disjoint(a: seq<string>, b: seq<string>) {
    forall k | k in a :: k !in b
  }

  method Tally(region: seq<string>, counts: map<string, nat>) returns (more: map<string, nat>)
    requires Distinct(region)
    ensures more.Keys == counts.Keys + Elems(region)
    ensures forall k | k in more :: more[k] == (if k in counts then counts[k] else 0) + (if k in region then 1 else 0)
  {
    more := counts;
    for i := 0 to |region|
      invariant more.Keys == counts.Keys + Elems(region[..i])
      invariant forall k | k in more ::
        more[k] == (if k in counts then counts[k] else 0) + (if k in region[..i] then 1 else 0)
    {
      var key := region[i];
      assert key !in region[..i];
      more := more[key := (if key in more then more[key] else 0) + 1];
      assert region[..i + 1] == region[..i] + [key];
    }
    assert region[..|region|] == region;
  }

  method OverlapIssues(a: seq<string>, b: seq<string>, c: seq<string>) returns (issues: seq<Issue>)
    requires Distinct(a) && Distinct(b) && Distinct(c)
    ensures issues == [] <==> Disjoint(a, b) && Disjoint(a, c) && Disjoint(b, c)
  {
    var counts := Tally(a, map[]);
    counts := Tally(b, counts);
    counts := Tally(c, counts);
    assert (forall k | k in counts :: counts[k] <= 1) <==> Disjoint(a, b) && Disjoint(a, c) && Disjoint(b, c);
    issues := CountedTwice(a + b + c, counts);
  }

  method CountedTwice(keys: seq<string>, counts: map<string, nat>) returns (issues: seq<Issue>)
    requires counts.Keys == Elems(keys)
    ensures issues == [] <==> forall k | k in counts :: counts[k] <= 1
  {
    issues := [];
    for i := 0 to |keys|
      invariant issues == [] <==> forall j | 0 <= j < i :: counts[keys[j]] <= 1
    {
      if keys[i] !in keys[..i] && counts[keys[i]] > 1 {
        issues := issues + [Issue("try_region_overlap", Some(keys[i]))];
      }
    }
  }

  method ValidateStep(step: Step, steps: seq<Step>, keys: set<string>, edges: seq<Edge>, next: Adjacency)
    returns (issues: seq<Issue>)
    requires ArcsOf(next) == EdgeArcs(edges)
    ensures issues == [] <==> StepOk(step, steps, keys, edges)
  {
    if step.kind == CONDITIONAL {
      issues := [Issue("legacy_conditional_not_supported", Some(step.key))];
    } else if step.kind == FOR_EACH {
      issues := ValidateForEach(step, steps, keys, edges, next);
    } else if step.kind == TRY_CATCH {
      issues := ValidateTryCatch(step, steps, keys, edges, next);
    } else {
      issues := [];
    }
    issues := issues + step.ownIssues;
  }

  method CycleIssues(steps: seq<Step>, keys: set<string>, edges: seq<Edge>, next: Adjacency)
    returns (issues: seq<Issue>)
    requires keys == Elems(Keys(steps)) && ArcsOf(next) == EdgeArcs(edges)
    requires forall e | e in edges :: ValidEdge(e, keys)
    ensures issues == [] <==> !HasCycle(EdgeArcs(edges))
  {
    var reported := FindCycles(Keys(steps), next);
    issues := Labelled("cycle", reported);
  }

  /** What an accepted graph satisfies apart from the checks of the single steps. */
  ghost predicate WellConnected(steps: seq<Step>, graph: GraphDef) {
    var keys, edges := Elems(Keys(steps)), EdgesOf(graph);
    && DistinctKeys(steps) && DistinctIds(steps) && steps != []
    && Resolved(graph.entryStepKey, keys)
    && EdgesOk(edges, keys)
    && !HasCycle(EdgeArcs(edges))
    && (forall k | k in keys :: Reaches(EdgeArcs(edges), StringValue(graph.entryStepKey).value, k))
  }

  method WholeGraphIssues(steps: seq<Step>, graph: GraphDef, next: Adjacency)
    returns (issues: seq<Issue>, keys: set<string>)
    requires ArcsOf(next) == EdgeArcs(EdgesOf(graph))
    ensures issues == [] <==> WellConnected(steps, graph)
    ensures keys == Elems(Keys(steps))
  {
    var edges := EdgesOf(graph);
    issues, keys := StepIssues(steps);
    if steps == [] { issues := issues + [Issue("empty_graph", None)]; }
    var entry := StringValue(graph.entryStepKey);
    if entry.None? || entry.value !in keys { issues := issues + [Issue("invalid_entry", None)]; }
    var found := EdgeIssues(edges, keys);
    issues := issues + found;
    if !ReportsInvalidEdge(found) {
      var cycles := CycleIssues(steps, keys, edges, next);
      issues := issues + cycles;
      if entry.Some? {
        var missing := UnreachableSteps(entry.value, Keys(steps), next);
        assert missing == [] <==> forall k | k in keys :: Reaches(EdgeArcs(edges), entry.value, k) by {
          if missing != [] { assert missing[0] in missing; }
        }
        issues := issues + Labelled("unreachable", missing);
      }
    } else {
      var e :| e in edges && !ValidEdge(e, keys);
      var i :| 0 <= i < |edges| && edges[i] == e;
      assert !EdgeOkAt(edges, keys, i);
    }
  }

  method ValidateGraph(steps: seq<Step>, graph: Option<GraphDef>) returns (issues: seq<Issue>)
    ensures issues == [] <==> graph.Some? && Accepted(steps, graph.value)
  {
    if graph.None? { return [Issue("missing_graph", None)]; }
    var edges := EdgesOf(graph.value);
    var next := AdjacencyMap(edges);
    var keys;
    issues, keys := WholeGraphIssues(steps, graph.value, next);
    for i := 0 to |steps|
      invariant issues == [] <==>
        WellConnected(steps, graph.value) && forall j | 0 <= j < i :: StepOk(steps[j], steps, keys, edges)
    {
      var own := ValidateStep(steps[i], steps, keys, edges, next);
      issues := issues + own;
    }
  }
}
