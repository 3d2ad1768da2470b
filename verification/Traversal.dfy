/**
 The depth-first searches of the graph validator. JavaScript sets keep insertion order,
 so the `seen`, `visiting` and `visited` sets are sequences without repeats.
 */
module Traversal {
  import opened Text
  import opened Digraph

  type Adjacency = map<string, seq<string>>

  function Lookup(next: Adjacency, key: string): seq<string> {
    if key in next then next[key] else []
  }

  function ArcsOf(next: Adjacency): Arcs {
    set a, b | a in next && b in next[a] :: (a, b)
  }

  ghost predicate Avoids(p: seq<string>, stop: Option<string>) {
    stop.Some? ==> stop.value !in p
  }

  /** `k` is reached from `start` without touching `stop`. */
  ghost predicate InRegion(g: Arcs, start: string, stop: Option<string>, k: string) {
    exists p :: PathBetween(g, p, start, k) && Avoids(p, stop)
  }

  /** Every arc out of `k` ends in `seen` or at `stop`. */
  ghost predicate Settled(g: Arcs, stop: Option<string>, seen: seq<string>, k: string) {
    forall t | (k, t) in g :: t in seen || stop == Some(t)
  }

  lemma RegionStart(g: Arcs, start: string, stop: Option<string>)
    requires stop != Some(start)
    ensures InRegion(g, start, stop, start)
  {
    assert PathBetween(g, [start], start, start) && Avoids([start], stop);
  }

  lemma RegionPrepend(g: Arcs, key: string, t: string, stop: Option<string>, k: string)
    requires (key, t) in g && stop != Some(key) && InRegion(g, t, stop, k)
    ensures InRegion(g, key, stop, k)
  {
    var p :| PathBetween(g, p, t, k) && Avoids(p, stop);
    JoinPaths(g, [key, t], p, key, t, k);
    assert Avoids([key, t] + p[1..], stop);
  }

  /** A region is closed: an arc out of it stays inside or ends at the stop. */
  lemma RegionClosed(g: Arcs, start: string, stop: Option<string>, k: string, t: string)
    requires InRegion(g, start, stop, k) && (k, t) in g && stop != Some(t)
    ensures InRegion(g, start, stop, t)
  {
    var p :| PathBetween(g, p, start, k) && Avoids(p, stop);
    ExtendPath(g, p, t);
    assert Avoids(p + [t], stop);
  }

  lemma {:induction false} SettledCoversPath(g: Arcs, stop: Option<string>, seen: seq<string>, p: seq<string>, m: int)
    requires IsPath(g, p) && Avoids(p, stop) && p[0] in seen && 0 <= m < |p|
    requires forall k | k in seen :: Settled(g, stop, seen, k)
    ensures p[m] in seen
  {
    if m > 0 {
      SettledCoversPath(g, stop, seen, p, m - 1);
      assert (p[m - 1], p[m]) in g;
    }
  }

  lemma SettledCoversRegion(g: Arcs, start: string, stop: Option<string>, seen: seq<string>, k: string)
    requires start in seen && InRegion(g, start, stop, k)
    requires forall k | k in seen :: Settled(g, stop, seen, k)
    ensures k in seen
  {
    var p :| PathBetween(g, p, start, k) && Avoids(p, stop);
    SettledCoversPath(g, stop, seen, p, |p| - 1);
  }

  /** A search that has moved on to `key` has fewer nodes left. */
  lemma FewerLeft(g: Arcs, before: seq<string>, after: seq<string>, key: string)
    requires before <= after && key in Nodes(g) && key !in before && key in after
    ensures Nodes(g) - Elems(after) < Nodes(g) - Elems(before)
  {
    assert forall k | k in before :: k in after;
    assert key in Nodes(g) - Elems(before);
  }

  lemma RegionWithoutStop(g: Arcs, start: string, k: string)
    ensures InRegion(g, start, None, k) <==> Reaches(g, start, k)
  {
    if Reaches(g, start, k) {
      var p :| PathBetween(g, p, start, k);
      assert Avoids(p, None);
    }
  }

  /** The nodes added so far lie beyond `key`, and only `key` itself may still have targets to visit. */
  ghost predicate Walked(g: Arcs, stop: Option<string>, key: string, start: seq<string>, seen: seq<string>) {
    forall k | k in seen && k !in start :: InRegion(g, key, stop, k) && (k == key || Settled(g, stop, seen, k))
  }

  lemma WalkedOn(g: Arcs, stop: Option<string>, key: string, target: string, start: seq<string>, before: seq<string>,
      after: seq<string>)
    requires (key, target) in g && stop != Some(key) && before <= after && Walked(g, stop, key, start, before)
    requires forall k | k in after && k !in before :: Settled(g, stop, after, k) && InRegion(g, target, stop, k)
    ensures Walked(g, stop, key, start, after)
  {
    forall k | k in after && k !in start
      ensures InRegion(g, key, stop, k) && (k == key || Settled(g, stop, after, k))
    {
      if k in before {
        assert k == key || Settled(g, stop, before, k);
      } else {
        RegionPrepend(g, key, target, stop, k);
      }
    }
  }

  ghost predicate Handled(targets: seq<string>, n: int, stop: Option<string>, seen: seq<string>) {
    forall j | 0 <= j < n && j < |targets| :: targets[j] in seen || stop == Some(targets[j])
  }

  lemma HandledOn(targets: seq<string>, i: nat, stop: Option<string>, before: seq<string>, after: seq<string>)
    requires i < |targets| && Handled(targets, i, stop, before) && before <= after &&
      (targets[i] in after || stop == Some(targets[i]))
    ensures Handled(targets, i + 1, stop, after)
  {
    assert forall k | k in before :: k in after;
  }

  /** The search that collects nodes and turns back at `stop`. */
  class Walk {
    const next: Adjacency
    const stop: Option<string>
    var seen: seq<string>

    constructor (next: Adjacency, stop: Option<string>)
      ensures this.next == next && this.stop == stop && seen == []
    {
      this.next, this.stop, this.seen := next, stop, [];
    }

    ghost predicate Valid()
      reads this
    {
      Distinct(seen) && Avoids(seen, stop)
    }

    method Visit(key: string)
      requires Valid()
      modifies this
      ensures Valid() && old(seen) <= seen
      ensures key in seen || stop == Some(key)
      ensures forall k | k in seen && k !in old(seen) ::
                Settled(ArcsOf(next), stop, seen, k) && InRegion(ArcsOf(next), key, stop, k)
      decreases Nodes(ArcsOf(next)) - Elems(seen)
    {
      if stop == Some(key) || key in seen { return; }
      ghost var g := ArcsOf(next);
      seen := seen + [key];
      RegionStart(g, key, stop);
      var targets := Lookup(next, key);
      for i := 0 to |targets|
        invariant Valid() && old(seen) <= seen && key in seen && key !in old(seen)
        invariant Handled(targets, i, stop, seen)
        invariant Walked(g, stop, key, old(seen), seen)
      {
        var target := targets[i];
        assert (key, target) in g;
        NodesHold(g, key, target);
        FewerLeft(g, old(seen), seen, key);
        ghost var before := seen;
        Visit(target);
        WalkedOn(g, stop, key, target, old(seen), before, seen);
        HandledOn(targets, i, stop, before, seen);
      }
    }
  }

  /** Everything reachable from `start` without touching `stop`, each node once. */
  method Descendants(start: string, stop: Option<string>, next: Adjacency) returns (seen: seq<string>)
    ensures Distinct(seen)
    ensures forall k :: k in seen <==> InRegion(ArcsOf(next), start, stop, k)
  {
    var walk := new Walk(next, stop);
    walk.Visit(start);
    seen := walk.seen;
    forall k | InRegion(ArcsOf(next), start, stop, k)
      ensures k in seen
    {
      var p :| PathBetween(ArcsOf(next), p, start, k) && Avoids(p, stop);
      assert p[0] == start;
      SettledCoversRegion(ArcsOf(next), start, stop, seen, k);
    }
  }

  /** The search that stops as soon as it meets its target. */
  class Search {
    const next: Adjacency
    const target: string
    var seen: seq<string>

    constructor (next: Adjacency, target: string)
      ensures this.next == next && this.target == target && seen == []
    {
      this.next, this.target, this.seen := next, target, [];
    }

    method Visit(key: string) returns (found: bool)
      requires target !in seen
      modifies this
      ensures found ==> Reaches(ArcsOf(next), key, target)
      ensures !found ==> old(seen) <= seen && key in seen && target !in seen
      ensures !found ==> forall k | k in seen && k !in old(seen) :: Settled(ArcsOf(next), None, seen, k)
      decreases Nodes(ArcsOf(next)) - Elems(seen)
    {
      ghost var g := ArcsOf(next);
      ReachesSelf(g, target);
      if key == target { return true; }
      if key in seen { return false; }
      seen := seen + [key];
      var targets := Lookup(next, key);
      for i := 0 to |targets|
        invariant old(seen) <= seen && key in seen && key !in old(seen) && target !in seen
        invariant forall j | 0 <= j < i :: targets[j] in seen
        invariant forall k | k in seen && k !in old(seen) :: k == key || Settled(g, None, seen, k)
      {
        assert (key, targets[i]) in g;
        NodesHold(g, key, targets[i]);
        FewerLeft(g, old(seen), seen, key);
        found := Visit(targets[i]);
        if found {
          ReachesArc(g, key, targets[i]);
          ReachesTransitive(g, key, targets[i], target);
          return;
        }
      }
      found := false;
    }
  }

  method CanReach(start: string, target: string, next: Adjacency) returns (found: bool)
    ensures found <==> Reaches(ArcsOf(next), start, target)
  {
    var search := new Search(next, target);
    found := search.Visit(start);
    if !found && Reaches(ArcsOf(next), start, target) {
      RegionWithoutStop(ArcsOf(next), start, target);
      SettledCoversRegion(ArcsOf(next), start, None, search.seen, target);
    }
  }

  /** Each node comes after all its successors. */
  ghost predicate ChildrenFirst(g: Arcs, order: seq<string>) {
    forall i, t | 0 <= i < |order| && (order[i], t) in g :: t in order[..i]
  }

  function IndexOf(order: seq<string>, k: string): int {
    if order == [] then 0 else if order[0] == k then 0 else 1 + IndexOf(order[1..], k)
  }

  lemma {:induction false} IndexOfFirst(order: seq<string>, k: string, i: int)
    requires 0 <= i < |order| && order[i] == k
    ensures 0 <= IndexOf(order, k) <= i && order[IndexOf(order, k)] == k
  {
    if order[0] != k { IndexOfFirst(order[1..], k, i - 1); }
  }

  lemma ChildrenFirstIsAcyclic(g: Arcs, order: seq<string>)
    requires ChildrenFirst(g, order) && forall a, b | (a, b) in g :: a in order
    ensures !HasCycle(g)
  {
    var rank := k => IndexOf(order, k);
    forall a, b | (a, b) in g
      ensures rank(b) < rank(a)
    {
      var i :| 0 <= i < |order| && order[i] == a;
      IndexOfFirst(order, a, i);
      var j :| 0 <= j < rank(a) && order[j] == b;
      IndexOfFirst(order, b, j);
    }
    RankedIsAcyclic(g, rank);
  }

  /** The search that reports a cycle when it meets a node still on its stack. */
  class CycleSearch {
    const next: Adjacency
    var visiting: seq<string>
    var visited: seq<string>
    var reported: seq<string>

    constructor (next: Adjacency)
      ensures this.next == next && visiting == [] && visited == [] && reported == []
    {
      this.next, visiting, visited, reported := next, [], [], [];
    }

    ghost predicate Valid()
      reads this
    {
      && Distinct(visiting)
      && (forall k | k in visiting :: k !in visited)
      && (reported == [] ==> ChildrenFirst(ArcsOf(next), visited))
      && (reported != [] ==> HasCycle(ArcsOf(next)))
    }

    method Visit(key: string)
      requires Valid() && IsPath(ArcsOf(next), visiting + [key])
      modifies this
      ensures Valid() && visiting == old(visiting)
      ensures old(visited) <= visited && old(reported) <= reported
      ensures reported == [] ==> key in visited
      decreases Nodes(ArcsOf(next)) - Elems(visiting)
    {
      ghost var g := ArcsOf(next);
      if key in visiting {
        StackCloses(g, visiting, key);
        reported := reported + [key];
        return;
      }
      if key in visited { return; }
      visiting := visiting + [key];
      var targets := Lookup(next, key);
      for i := 0 to |targets|
        invariant Valid() && visiting == old(visiting) + [key]
        invariant old(visited) <= visited && old(reported) <= reported
        invariant reported == [] ==> forall j | 0 <= j < i :: targets[j] in visited
      {
        assert (key, targets[i]) in g;
        NodesHold(g, key, targets[i]);
        ExtendPath(g, visiting, targets[i]);
        FewerLeft(g, old(visiting), visiting, key);
        Visit(targets[i]);
      }
      visiting := visiting[..|visiting| - 1];
      assert visiting == old(visiting);
      assert forall i | 0 <= i < |visited| :: (visited + [key])[..i] == visited[..i];
      visited := visited + [key];
    }
  }

  lemma StackCloses(g: Arcs, stack: seq<string>, key: string)
    requires key in stack && IsPath(g, stack + [key])
    ensures HasCycle(g)
  {
    var i :| 0 <= i < |stack| && stack[i] == key;
    var p := stack + [key];
    SlicePath(g, p, i, |p| - 1);
    assert IsCycle(g, p[i..|p| - 1 + 1]);
  }

  /** The nodes at which a cycle was reported: none exactly when there is no cycle. */
  method FindCycles(keys: seq<string>, next: Adjacency) returns (reported: seq<string>)
    requires forall a, b | (a, b) in ArcsOf(next) :: a in keys
    ensures reported == [] <==> !HasCycle(ArcsOf(next))
  {
    var search := new CycleSearch(next);
    for i := 0 to |keys|
      invariant search.Valid() && search.visiting == []
      invariant search.reported == [] ==> forall j | 0 <= j < i :: keys[j] in search.visited
    {
      search.Visit(keys[i]);
    }
    reported := search.reported;
    if reported == [] {
      ChildrenFirstIsAcyclic(ArcsOf(next), search.visited);
    }
  }
}
