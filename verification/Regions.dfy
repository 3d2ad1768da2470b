/**
 Controlled regions of an acyclic graph: a set of nodes that is entered only from a
 header and left only to an exit, where the header also has an arc to the exit.
 */
module Regions {
  import opened Digraph

  datatype Region = Region(header: string, exit: string, body: set<string>)

  ghost predicate Controlled(g: Arcs, entry: string, r: Region) {
    && r.header !in r.body && r.exit !in r.body
    && (r.header, r.exit) in g
    && (forall a, b | (a, b) in g && a in r.body :: b in r.body || b == r.exit)
    && (forall a, b | (a, b) in g && b in r.body && a !in r.body :: a == r.header)
    && (forall k | k in r.body :: Reaches(g, k, r.exit))
    && Reaches(g, entry, r.header)
  }

  /** A path that cannot be extended. */
  ghost predicate Maximal(g: Arcs, p: seq<string>) {
    IsPath(g, p) && forall a | a in g :: a.0 != p[|p| - 1]
  }

  /** A run: a path from the entry that cannot be extended. */
  ghost predicate Run(g: Arcs, entry: string, p: seq<string>) {
    Maximal(g, p) && p[0] == entry
  }

  ghost predicate Dominates(g: Arcs, entry: string, h: string, x: string) {
    forall p | PathBetween(g, p, entry, x) :: h in p
  }

  ghost predicate PostDominates(g: Arcs, d: string, x: string) {
    forall p | Maximal(g, p) && p[0] == x :: d in p
  }

  lemma {:induction false} LeaveThroughExit(g: Arcs, entry: string, r: Region, p: seq<string>, start: int)
    returns (k: int)
    requires Controlled(g, entry, r) && IsPath(g, p)
    requires 0 <= start < |p| && p[start] in r.body && p[|p| - 1] !in r.body
    ensures start < k < |p| && p[k] == r.exit
    ensures forall m | start <= m < k :: p[m] in r.body
    decreases |p| - start
  {
    assert (p[start], p[start + 1]) in g;
    if p[start + 1] in r.body {
      k := LeaveThroughExit(g, entry, r, p, start + 1);
    } else {
      k := start + 1;
    }
  }

  lemma {:induction false} EnterThroughHeader(g: Arcs, entry: string, r: Region, p: seq<string>, first: int, last: int)
    returns (j: int)
    requires Controlled(g, entry, r) && IsPath(g, p)
    requires 0 <= first <= last < |p| && p[first] !in r.body && p[last] in r.body
    ensures first <= j < last && p[j] == r.header
    ensures forall m | j < m <= last :: p[m] in r.body
    decreases last
  {
    assert first < last;
    assert (p[last - 1], p[last]) in g;
    if p[last - 1] in r.body {
      j := EnterThroughHeader(g, entry, r, p, first, last - 1);
    } else {
      j := last - 1;
    }
  }

  /** In an acyclic graph the exit never leads back to the header. */
  lemma ExitDoesNotReturn(g: Arcs, entry: string, r: Region)
    requires !HasCycle(g) && Controlled(g, entry, r)
    ensures !Reaches(g, r.exit, r.header)
  {
    if Reaches(g, r.exit, r.header) { CycleBack(g, r.header, r.exit); }
  }

  /** The entry of the graph is never inside a controlled region. */
  lemma EntryOutside(g: Arcs, entry: string, r: Region)
    requires !HasCycle(g) && Controlled(g, entry, r)
    ensures entry !in r.body
  {
    if entry in r.body {
      var p :| PathBetween(g, p, entry, r.header);
      var k := LeaveThroughExit(g, entry, r, p, 0);
      ReachesAlong(g, p, k, |p| - 1);
      ExitDoesNotReturn(g, entry, r);
    }
  }

  /** The header dominates the body. */
  lemma HeaderDominates(g: Arcs, entry: string, r: Region, x: string)
    requires !HasCycle(g) && Controlled(g, entry, r) && x in r.body
    ensures Dominates(g, entry, r.header, x)
  {
    EntryOutside(g, entry, r);
    forall p | PathBetween(g, p, entry, x)
      ensures r.header in p
    {
      var j := EnterThroughHeader(g, entry, r, p, 0, |p| - 1);
      assert p[j] == r.header;
    }
  }

  lemma BodyNeverEnds(g: Arcs, entry: string, r: Region, x: string) returns (b: string)
    requires Controlled(g, entry, r) && x in r.body
    ensures (x, b) in g
  {
    assert Reaches(g, x, r.exit);
    var p :| PathBetween(g, p, x, r.exit);
    assert (p[0], p[1]) in g;
    b := p[1];
  }

  /** A path that starts in the body and cannot be extended has come out at the exit. */
  lemma MaximalPathLeaves(g: Arcs, entry: string, r: Region, p: seq<string>, start: int) returns (k: int)
    requires Controlled(g, entry, r) && Maximal(g, p)
    requires 0 <= start < |p| && p[start] in r.body
    ensures start < k < |p| && p[k] == r.exit
    ensures forall m | start <= m < k :: p[m] in r.body
  {
    if p[|p| - 1] in r.body {
      var b := BodyNeverEnds(g, entry, r, p[|p| - 1]);
    }
    k := LeaveThroughExit(g, entry, r, p, start);
  }

  /** The exit post-dominates the body. */
  lemma ExitPostDominates(g: Arcs, entry: string, r: Region, x: string)
    requires Controlled(g, entry, r) && x in r.body
    ensures PostDominates(g, r.exit, x)
  {
    forall p | Maximal(g, p) && p[0] == x
      ensures r.exit in p
    {
      var k := MaximalPathLeaves(g, entry, r, p, 0);
      assert p[k] == r.exit;
    }
  }

  /** The body steps of a run are one block: the header comes right before it, the exit right after it. */
  ghost predicate OneBlock(p: seq<string>, r: Region, j: int, k: int) {
    && 0 <= j < k < |p| && p[j] == r.header && p[k] == r.exit
    && (forall m | 0 <= m < |p| :: p[m] in r.body <==> j < m < k)
  }

  lemma RunHasOneBlock(g: Arcs, entry: string, r: Region, p: seq<string>, i: int) returns (j: int, k: int)
    requires !HasCycle(g) && Controlled(g, entry, r) && Run(g, entry, p)
    requires 0 <= i < |p| && p[i] in r.body
    ensures j < i < k && OneBlock(p, r, j, k)
  {
    EntryOutside(g, entry, r);
    j := EnterThroughHeader(g, entry, r, p, 0, i);
    k := MaximalPathLeaves(g, entry, r, p, i);
    forall m | 0 <= m < |p| && !(j < m < k)
      ensures p[m] !in r.body
    {
      if p[m] in r.body { BlockIsWhole(g, entry, r, p, j, k, m); }
    }
  }

  lemma BlockIsWhole(g: Arcs, entry: string, r: Region, p: seq<string>, j: int, k: int, m: int)
    requires !HasCycle(g) && Controlled(g, entry, r) && IsPath(g, p)
    requires 0 <= j < k < |p| && p[j] == r.header && p[k] == r.exit
    requires 0 <= m < |p| && (m <= j || k <= m)
    ensures p[m] !in r.body
  {
    ExitDoesNotReturn(g, entry, r);
    if p[m] in r.body {
      if m <= j {
        SlicePath(g, p, m, j);
        var q := p[m..j + 1];
        var e := LeaveThroughExit(g, entry, r, q, 0);
        ReachesAlong(g, q, e, |q| - 1);
      } else {
        var h := EnterThroughHeader(g, entry, r, p, k, m);
        ReachesAlong(g, p, k, h);
      }
    }
  }

  /** Every reachable body node is reached from the header without leaving the body. */
  lemma ReachedInside(g: Arcs, entry: string, r: Region, x: string) returns (q: seq<string>)
    requires !HasCycle(g) && Controlled(g, entry, r) && x in r.body && Reaches(g, entry, x)
    ensures PathBetween(g, q, r.header, x) && 2 <= |q|
    ensures forall m | 0 < m < |q| :: q[m] in r.body
  {
    EntryOutside(g, entry, r);
    var p :| PathBetween(g, p, entry, x);
    var j := EnterThroughHeader(g, entry, r, p, 0, |p| - 1);
    SlicePath(g, p, j, |p| - 1);
    q := p[j..|p| - 1 + 1];
    assert forall m | 0 < m < |q| :: q[m] == p[j + m];
  }

  ghost predicate AllReached(g: Arcs, entry: string, r: Region) {
    forall x | x in r.body :: Reaches(g, entry, x)
  }

  /** Two regions whose headers differ and lie outside each other's body have nothing in common. */
  lemma OutsideHeadersDisjoint(g: Arcs, entry: string, r: Region, s: Region)
    requires !HasCycle(g) && Controlled(g, entry, r) && Controlled(g, entry, s) && AllReached(g, entry, r)
    requires r.header != s.header && r.header !in s.body && s.header !in r.body
    ensures r.body !! s.body
  {
    if x :| x in r.body && x in s.body {
      var q := ReachedInside(g, entry, r, x);
      var j := EnterThroughHeader(g, entry, s, q, 0, |q| - 1);
    }
  }

  /** If the header of `r` lies in the body of `s`, the header of `s` is not in the body of `r`. */
  lemma HeadersNotMutual(g: Arcs, entry: string, r: Region, s: Region)
    requires !HasCycle(g) && Controlled(g, entry, r) && Controlled(g, entry, s)
    requires AllReached(g, entry, r) && AllReached(g, entry, s)
    ensures r.header !in s.body || s.header !in r.body
  {
    if r.header in s.body && s.header in r.body {
      var p := ReachedInside(g, entry, s, r.header);
      var q := ReachedInside(g, entry, r, s.header);
      CycleBetween(g, r.header, s.header);
    }
  }

  /** If the header of `r` lies in the body of `s`, all of `r` does. */
  lemma InnerHeaderNested(g: Arcs, entry: string, r: Region, s: Region)
    requires !HasCycle(g) && Controlled(g, entry, r) && Controlled(g, entry, s)
    requires AllReached(g, entry, r) && AllReached(g, entry, s)
    requires r.header in s.body
    ensures r.body <= s.body
  {
    HeadersNotMutual(g, entry, r, s);
    forall x | x in r.body
      ensures x in s.body
    {
      var q := ReachedInside(g, entry, r, x);
      StaysInside(g, entry, r, s, q, |q| - 1);
    }
  }

  lemma {:induction false} StaysInside(g: Arcs, entry: string, r: Region, s: Region, q: seq<string>, m: int)
    requires Controlled(g, entry, r) && Controlled(g, entry, s)
    requires r.header in s.body && s.header !in r.body
    requires IsPath(g, q) && q[0] == r.header && 0 <= m < |q|
    requires forall m | 0 < m < |q| :: q[m] in r.body
    ensures q[m] in s.body
  {
    if m > 0 {
      StaysInside(g, entry, r, s, q, m - 1);
      assert (q[m - 1], q[m]) in g;
      // The exit of s cannot be in r: its arc from the header of s would enter r from outside.
      assert (s.header, s.exit) in g;
    }
  }

  /** Controlled regions with different headers are nested or disjoint. */
  lemma Laminar(g: Arcs, entry: string, r: Region, s: Region)
    requires !HasCycle(g) && Controlled(g, entry, r) && Controlled(g, entry, s)
    requires AllReached(g, entry, r) && AllReached(g, entry, s)
    requires r.header != s.header
    ensures r.body !! s.body || r.body <= s.body || s.body <= r.body
  {
    if r.header in s.body {
      InnerHeaderNested(g, entry, r, s);
    } else if s.header in r.body {
      InnerHeaderNested(g, entry, s, r);
    } else {
      OutsideHeadersDisjoint(g, entry, r, s);
    }
  }
}
