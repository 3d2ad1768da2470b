/** Paths, cycles and reachability in a finite relation on strings. */
module Digraph {

  type Arcs = set<(string, string)>

  ghost predicate IsPath(g: Arcs, p: seq<string>) {
    0 < |p| && forall i, j :: 0 <= i < j < |p| && j == i + 1 ==> (p[i], p[j]) in g
  }

  ghost predicate PathBetween(g: Arcs, p: seq<string>, a: string, b: string) {
    IsPath(g, p) && p[0] == a && p[|p| - 1] == b
  }

  /** `b` can be reached from `a` along zero or more arcs. */
  ghost predicate Reaches(g: Arcs, a: string, b: string) {
    exists p :: PathBetween(g, p, a, b)
  }

  ghost predicate IsCycle(g: Arcs, p: seq<string>) {
    IsPath(g, p) && 2 <= |p| && p[0] == p[|p| - 1]
  }

  ghost predicate HasCycle(g: Arcs) {
    exists p :: IsCycle(g, p)
  }

  predicate Distinct(p: seq<string>) {
    forall i, j :: 0 <= i < j < |p| ==> p[i] != p[j]
  }

  function Elems(p: seq<string>): set<string> {
    set k | k in p
  }

  /** Every endpoint of an arc. */
  function Nodes(g: Arcs): set<string> {
    (set a | a in g :: a.0) + (set a | a in g :: a.1)
  }

  lemma NodesHold(g: Arcs, a: string, b: string)
    requires (a, b) in g
    ensures a in Nodes(g) && b in Nodes(g)
  {
    assert (a, b).0 == a && (a, b).1 == b;
  }

  lemma ReachesSelf(g: Arcs, a: string)
    ensures Reaches(g, a, a)
  {
    assert PathBetween(g, [a], a, a);
  }

  lemma ReachesArc(g: Arcs, a: string, b: string)
    requires (a, b) in g
    ensures Reaches(g, a, b)
  {
    assert PathBetween(g, [a, b], a, b);
  }

  lemma JoinPaths(g: Arcs, p: seq<string>, q: seq<string>, a: string, b: string, c: string)
    requires PathBetween(g, p, a, b) && PathBetween(g, q, b, c)
    ensures PathBetween(g, p + q[1..], a, c)
  {
    var r := p + q[1..];
    forall i, j | 0 <= i < j < |r| && j == i + 1
      ensures (r[i], r[j]) in g
    {
      if i >= |p| - 1 {
        assert r[i] == q[i - (|p| - 1)] && r[j] == q[j - (|p| - 1)];
      }
    }
  }

  lemma ReachesTransitive(g: Arcs, a: string, b: string, c: string)
    requires Reaches(g, a, b) && Reaches(g, b, c)
    ensures Reaches(g, a, c)
  {
    var p :| PathBetween(g, p, a, b);
    var q :| PathBetween(g, q, b, c);
    JoinPaths(g, p, q, a, b, c);
  }

  lemma SlicePath(g: Arcs, p: seq<string>, i: int, j: int)
    requires IsPath(g, p) && 0 <= i <= j < |p|
    ensures PathBetween(g, p[i..j + 1], p[i], p[j])
  {
  }

  lemma ReachesAlong(g: Arcs, p: seq<string>, i: int, j: int)
    requires IsPath(g, p) && 0 <= i <= j < |p|
    ensures Reaches(g, p[i], p[j])
  {
    SlicePath(g, p, i, j);
  }

  lemma ExtendPath(g: Arcs, p: seq<string>, b: string)
    requires IsPath(g, p) && (p[|p| - 1], b) in g
    ensures PathBetween(g, p + [b], p[0], b)
  {
  }

  /** An arc from `a` to `b` and a way back close a cycle. */
  lemma CycleBack(g: Arcs, a: string, b: string)
    requires (a, b) in g && Reaches(g, b, a)
    ensures HasCycle(g)
  {
    var q :| PathBetween(g, q, b, a);
    JoinPaths(g, [a, b], q, a, b, a);
    assert IsCycle(g, [a, b] + q[1..]);
  }

  /** Two different nodes that reach each other lie on a cycle. */
  lemma CycleBetween(g: Arcs, a: string, b: string)
    requires a != b && Reaches(g, a, b) && Reaches(g, b, a)
    ensures HasCycle(g)
  {
    var p :| PathBetween(g, p, a, b);
    var q :| PathBetween(g, q, b, a);
    JoinPaths(g, p, q, a, b, a);
    assert IsCycle(g, p + q[1..]);
  }

  /** Without a cycle no path visits a node twice. */
  lemma AcyclicPathDistinct(g: Arcs, p: seq<string>)
    requires !HasCycle(g) && IsPath(g, p)
    ensures Distinct(p)
  {
    forall i, j | 0 <= i < j < |p|
      ensures p[i] != p[j]
    {
      SlicePath(g, p, i, j);
      if p[i] == p[j] {
        assert IsCycle(g, p[i..j + 1]);
      }
    }
  }

  /** A list without repeats inside a set is no longer than the set. */
  lemma {:induction false} DistinctBound(p: seq<string>, s: set<string>)
    requires Distinct(p) && Elems(p) <= s
    ensures |p| <= |s|
  {
    if p != [] {
      var q := p[..|p| - 1];
      assert forall k | k in q :: k in p;
      assert p[|p| - 1] in p;
      DistinctBound(q, s - {p[|p| - 1]});
    }
  }

  /** The set of a list has as many members as the list exactly when nothing repeats. */
  lemma {:induction false} DistinctSize(p: seq<string>)
    ensures |Elems(p)| <= |p|
    ensures |Elems(p)| == |p| <==> Distinct(p)
  {
    if p != [] {
      var q, x := p[..|p| - 1], p[|p| - 1];
      DistinctSize(q);
      assert p == q + [x];
      assert Elems(p) == Elems(q) + {x};
      if x in q { assert Elems(p) == Elems(q); }
    }
  }

  /** A ranking that falls along every arc rules out cycles. */
  lemma RankedIsAcyclic(g: Arcs, rank: string -> int)
    requires forall a, b | (a, b) in g :: rank(b) < rank(a)
    ensures !HasCycle(g)
  {
    forall p | IsPath(g, p) && 2 <= |p|
      ensures p[0] != p[|p| - 1]
    {
      RankFalls(g, rank, p, |p| - 1);
    }
  }

  lemma NoArcsNoCycle()
    ensures !HasCycle({})
  {
    RankedIsAcyclic({}, k => 0);
  }

  lemma {:induction false} RankFalls(g: Arcs, rank: string -> int, p: seq<string>, j: int)
    requires forall a, b | (a, b) in g :: rank(b) < rank(a)
    requires IsPath(g, p) && 1 <= j < |p|
    ensures rank(p[j]) < rank(p[0])
  {
    assert (p[j - 1], p[j]) in g;
    if j > 1 { RankFalls(g, rank, p, j - 1); }
  }

  function Reverse(g: Arcs): Arcs {
    set a | a in g :: (a.1, a.0)
  }

  function Backwards(p: seq<string>): seq<string> {
    seq(|p|, i requires 0 <= i < |p| => p[|p| - 1 - i])
  }

  lemma ReversePath(g: Arcs, p: seq<string>, a: string, b: string)
    requires PathBetween(g, p, a, b)
    ensures PathBetween(Reverse(g), Backwards(p), b, a)
  {
    var q := Backwards(p);
    forall i, j | 0 <= i < j < |q| && j == i + 1
      ensures (q[i], q[j]) in Reverse(g)
    {
      assert (p[|p| - 1 - j], p[|p| - 1 - i]) in g;
    }
  }

  lemma ReverseReaches(g: Arcs, a: string, b: string)
    ensures Reaches(Reverse(g), b, a) <==> Reaches(g, a, b)
  {
    if Reaches(g, a, b) {
      var p :| PathBetween(g, p, a, b);
      ReversePath(g, p, a, b);
    }
    if Reaches(Reverse(g), b, a) {
      var p :| PathBetween(Reverse(g), p, b, a);
      ReversePath(Reverse(g), p, b, a);
      assert Reverse(Reverse(g)) == g;
    }
  }
}
