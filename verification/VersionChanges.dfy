/** What the changes of a version diff say: where they stand, what they show, and in which order they come. */
module VersionChanges {
  import opened Text
  import opened Digraph
  import opened SortedKeys
  import opened Json
  import opened CanonicalJson
  import opened VersionDiff

  // ----- the diff without its cap

  function Whole(a: Held, b: Held, path: Path, depth: nat, m: Masks): seq<Change>
    decreases MAX_DEPTH - depth, 2
  {
    if EqualHeld(a, b) then []
    else if !Open(a, b, depth) then [FieldChange(path, Some(a), Some(b), m)]
    else WholeParts(a, b, Segments(Flat(a), Flat(b)), path, depth, m)
  }

  function WholeParts(a: Held, b: Held, segs: seq<Segment>, path: Path, depth: nat, m: Masks): seq<Change>
    requires depth < MAX_DEPTH
    decreases MAX_DEPTH - depth, 1, |segs|
  {
    if segs == [] then [] else WholePart(a, b, segs[0], path, depth, m) + WholeParts(a, b, segs[1..], path, depth, m)
  }

  function WholePart(a: Held, b: Held, seg: Segment, path: Path, depth: nat, m: Masks): seq<Change>
    requires depth < MAX_DEPTH
    decreases MAX_DEPTH - depth, 0
  {
    var x, y := Member(a, seg, m), Member(b, seg, m);
    if x.Some? && y.Some? then Whole(x.value, y.value, path + [seg], depth + 1, m)
    else if x.None? && y.None? then []
    else [FieldChange(path + [seg], x, y, m)]
  }

  lemma StartOfStart(found: seq<Change>, all: seq<Change>, rest: seq<Change>)
    ensures Start((found + Start(all)) + rest) == Start(found + (all + rest))
  {
    if |all| > MAX_CHANGES {
      var x, y := Start((found + Start(all)) + rest), Start(found + (all + rest));
      assert |x| == |y| == MAX_CHANGES;
      assert forall i | 0 <= i < MAX_CHANGES :: x[i] == y[i];
    } else {
      assert (found + all) + rest == found + (all + rest);
    }
  }

  lemma {:induction false} CollectIsStart(a: Held, b: Held, segs: seq<Segment>, path: Path, depth: nat, m: Masks,
                                          found: seq<Change>)
    requires depth < MAX_DEPTH
    ensures Start(Collect(a, b, segs, path, depth, m, found)) == Start(found + WholeParts(a, b, segs, path, depth, m))
    decreases MAX_DEPTH - depth, 1, |segs|
  {
    if segs == [] {
      assert found + [] == found;
    } else if |found| < MAX_CHANGES {
      PartIsStart(a, b, segs[0], path, depth, m);
      CollectIsStart(a, b, segs[1..], path, depth, m, found + DiffChild(a, b, segs[0], path, depth, m));
      StartOfStart(found, WholePart(a, b, segs[0], path, depth, m), WholeParts(a, b, segs[1..], path, depth, m));
    }
  }

  lemma {:induction false} PartIsStart(a: Held, b: Held, seg: Segment, path: Path, depth: nat, m: Masks)
    requires depth < MAX_DEPTH
    ensures DiffChild(a, b, seg, path, depth, m) == Start(WholePart(a, b, seg, path, depth, m))
    decreases MAX_DEPTH - depth, 0
  {
    var x, y := Member(a, seg, m), Member(b, seg, m);
    if x.Some? && y.Some? { DiffIsStart(x.value, y.value, path + [seg], depth + 1, m); }
  }

  /** The cap keeps exactly the first 500 changes of the whole list. */
  lemma {:induction false} DiffIsStart(a: Held, b: Held, path: Path, depth: nat, m: Masks)
    ensures Diff(a, b, path, depth, m) == Start(Whole(a, b, path, depth, m))
    decreases MAX_DEPTH - depth, 2
  {
    if Open(a, b, depth) {
      var segs := Segments(Flat(a), Flat(b));
      CollectIsStart(a, b, segs, path, depth, m, []);
      assert [] + WholeParts(a, b, segs, path, depth, m) == WholeParts(a, b, segs, path, depth, m);
    }
  }

  // ----- what a change shows

  /** What stands in the value under a path. */
  function At(a: Held, path: Path, m: Masks): Option<Held>
    decreases |path|
  {
    if path == [] then Some(a) else
    var x := Member(a, path[0], m);
    if x.None? then None else At(x.value, path[1..], m)
  }

  /** A method has no serialized form, and so none that is too long. */
  predicate Short(v: Held, m: Masks) {
    v.Method? || m.size(Flat(v)) <= MAX_TEXT
  }

  /** Shown whole exactly when it is short, and absent exactly when there is nothing. */
  predicate Shows(shown: Option<Shown>, v: Option<Held>, m: Masks) {
    && (shown.None? <==> v.None?)
    && (v.Some? ==> (shown == Some(Full(v.value)) <==> Short(v.value, m)))
    && (v.Some? ==> (shown == Some(Truncated) <==> !Short(v.value, m)))
  }

  /** The change tells of `x` before and `y` after; a sensitive one shows neither. */
  predicate Tells(c: Change, x: Option<Held>, y: Option<Held>, m: Masks) {
    && (c.kind == Added <==> x.None?) && (c.kind == Removed <==> y.None?)
    && (c.sensitive <==> m.sensitive(c.path))
    && (c.sensitive ==> c.before.None? && c.after.None?)
    && (!c.sensitive ==> Shows(c.before, x, m) && Shows(c.after, y, m))
  }

  lemma FieldTells(path: Path, x: Option<Held>, y: Option<Held>, m: Masks)
    requires x.Some? || y.Some?
    ensures Tells(FieldChange(path, x, y, m), x, y, m) && FieldChange(path, x, y, m).path == path
  {
  }

  /** The change lies under `path` and tells of what stands there on either side. */
  ghost predicate TellsUnder(c: Change, a: Held, b: Held, path: Path, m: Masks) {
    && path <= c.path
    && Tells(c, At(a, c.path[|path|..], m), At(b, c.path[|path|..], m), m)
  }

  lemma Deeper(c: Change, a: Held, b: Held, seg: Segment, path: Path, m: Masks)
    requires var x, y := Member(a, seg, m), Member(b, seg, m);
      x.Some? && y.Some? && TellsUnder(c, x.value, y.value, path + [seg], m)
    ensures TellsUnder(c, a, b, path, m)
  {
    var rel := c.path[|path|..];
    assert (path + [seg])[|path|] == seg && c.path[|path|] == seg;
    assert rel[0] == seg && rel[1..] == c.path[|path + [seg]|..];
    assert path == (path + [seg])[..|path|] == c.path[..|path|];
  }

  lemma {:induction false} WholeTells(a: Held, b: Held, path: Path, depth: nat, m: Masks, c: Change)
    requires c in Whole(a, b, path, depth, m)
    ensures TellsUnder(c, a, b, path, m)
    decreases MAX_DEPTH - depth, 2
  {
    if Open(a, b, depth) {
      PartsTell(a, b, Segments(Flat(a), Flat(b)), path, depth, m, c);
    } else {
      FieldTells(path, Some(a), Some(b), m);
      assert c.path[|path|..] == [];
    }
  }

  lemma {:induction false} PartsTell(a: Held, b: Held, segs: seq<Segment>, path: Path, depth: nat, m: Masks, c: Change)
    requires depth < MAX_DEPTH && c in WholeParts(a, b, segs, path, depth, m)
    ensures TellsUnder(c, a, b, path, m)
    decreases MAX_DEPTH - depth, 1, |segs|
  {
    if c in WholePart(a, b, segs[0], path, depth, m) {
      PartTells(a, b, segs[0], path, depth, m, c);
    } else {
      PartsTell(a, b, segs[1..], path, depth, m, c);
    }
  }

  lemma {:induction false} PartTells(a: Held, b: Held, seg: Segment, path: Path, depth: nat, m: Masks, c: Change)
    requires depth < MAX_DEPTH && c in WholePart(a, b, seg, path, depth, m)
    ensures TellsUnder(c, a, b, path, m)
    decreases MAX_DEPTH - depth, 0
  {
    var x, y := Member(a, seg, m), Member(b, seg, m);
    if x.Some? && y.Some? {
      WholeTells(x.value, y.value, path + [seg], depth + 1, m, c);
      Deeper(c, a, b, seg, path, m);
    } else {
      FieldTells(path + [seg], x, y, m);
      assert c.path[|path|..] == [seg] && [seg][1..] == [];
      assert path == c.path[..|path|];
      assert At(a, [seg], m) == x && At(b, [seg], m) == y;
    }
  }

  /** Every change of a diff tells of what stands under its path before and after, and hides what is sensitive. */
  lemma ChangesTell(a: Json, b: Json, path: Path, depth: nat, m: Masks, c: Change)
    requires c in Diff(Own(a), Own(b), path, depth, m)
    ensures path <= c.path
    ensures Tells(c, At(Own(a), c.path[|path|..], m), At(Own(b), c.path[|path|..], m), m)
  {
    DiffIsStart(Own(a), Own(b), path, depth, m);
    WholeTells(Own(a), Own(b), path, depth, m, c);
  }

  // ----- the order of the changes

  predicate SegmentBefore(s: Segment, t: Segment) {
    (s.Index? && t.Index? && s.index < t.index) || (s.Key? && t.Key? && Less(s.key, t.key))
  }

  /** The paths part at their n-th segment, where `p` goes first. */
  ghost predicate PartsAt(p: Path, q: Path, n: int) {
    0 <= n < |p| && n < |q| && p[..n] == q[..n] && SegmentBefore(p[n], q[n])
  }

  ghost predicate PathBefore(p: Path, q: Path) {
    exists n :: PartsAt(p, q, n)
  }

  ghost predicate InOrder(changes: seq<Change>) {
    forall i, j | 0 <= i < j < |changes| :: PathBefore(changes[i].path, changes[j].path)
  }

  ghost predicate SegmentsRise(segs: seq<Segment>) {
    forall i, j | 0 <= i < j < |segs| :: SegmentBefore(segs[i], segs[j])
  }

  lemma SegmentsInOrder(a: Json, b: Json)
    ensures SegmentsRise(Segments(a, b))
  {
    if a.Obj? && b.Obj? {
      var keys := KeyList(a.fields) + KeyList(b.fields);
      SortRises(keys);
      assert forall i | 0 <= i < |SortKeys(keys)| :: Segments(a, b)[i] == Key(SortKeys(keys)[i]);
    }
  }

  lemma PartUnder(a: Held, b: Held, seg: Segment, path: Path, depth: nat, m: Masks, c: Change)
    requires depth < MAX_DEPTH && c in WholePart(a, b, seg, path, depth, m)
    ensures path + [seg] <= c.path
  {
    var x, y := Member(a, seg, m), Member(b, seg, m);
    if x.Some? && y.Some? { WholeTells(x.value, y.value, path + [seg], depth + 1, m, c); }
  }

  lemma {:induction false} PartsUnder(a: Held, b: Held, segs: seq<Segment>, path: Path, depth: nat, m: Masks, c: Change)
    returns (seg: Segment)
    requires depth < MAX_DEPTH && c in WholeParts(a, b, segs, path, depth, m)
    ensures seg in segs && path + [seg] <= c.path
    decreases |segs|
  {
    if c in WholePart(a, b, segs[0], path, depth, m) {
      seg := segs[0];
      PartUnder(a, b, seg, path, depth, m, c);
    } else {
      seg := PartsUnder(a, b, segs[1..], path, depth, m, c);
    }
  }

  lemma ApartUnder(path: Path, s: Segment, t: Segment, p: Path, q: Path)
    requires path + [s] <= p && path + [t] <= q && SegmentBefore(s, t)
    ensures PathBefore(p, q)
  {
    assert (path + [s])[|path|] == s && (path + [t])[|path|] == t;
    assert p[|path|] == s && q[|path|] == t;
    assert p[..|path|] == (path + [s])[..|path|] == path == (path + [t])[..|path|] == q[..|path|];
    assert PartsAt(p, q, |path|);
  }

  lemma JoinInOrder(x: seq<Change>, y: seq<Change>)
    requires InOrder(x) && InOrder(y) && forall c, d | c in x && d in y :: PathBefore(c.path, d.path)
    ensures InOrder(x + y)
  {
    forall i, j | 0 <= i < j < |x + y|
      ensures PathBefore((x + y)[i].path, (x + y)[j].path)
    {
      if i < |x| <= j { assert x[i] in x && y[j - |x|] in y; }
    }
  }

  lemma {:induction false} WholeInOrder(a: Held, b: Held, path: Path, depth: nat, m: Masks)
    ensures InOrder(Whole(a, b, path, depth, m))
    decreases MAX_DEPTH - depth, 2
  {
    if Open(a, b, depth) {
      SegmentsInOrder(Flat(a), Flat(b));
      PartsInOrder(a, b, Segments(Flat(a), Flat(b)), path, depth, m);
    }
  }

  lemma {:induction false} PartsInOrder(a: Held, b: Held, segs: seq<Segment>, path: Path, depth: nat, m: Masks)
    requires depth < MAX_DEPTH && SegmentsRise(segs)
    ensures InOrder(WholeParts(a, b, segs, path, depth, m))
    decreases MAX_DEPTH - depth, 1, |segs|
  {
    if segs != [] {
      var x, y := Member(a, segs[0], m), Member(b, segs[0], m);
      if x.Some? && y.Some? { WholeInOrder(x.value, y.value, path + [segs[0]], depth + 1, m); }
      PartsInOrder(a, b, segs[1..], path, depth, m);
      forall c, d | c in WholePart(a, b, segs[0], path, depth, m) && d in WholeParts(a, b, segs[1..], path, depth, m)
        ensures PathBefore(c.path, d.path)
      {
        PartUnder(a, b, segs[0], path, depth, m, c);
        var seg := PartsUnder(a, b, segs[1..], path, depth, m, d);
        ApartUnder(path, segs[0], seg, c.path, d.path);
      }
      JoinInOrder(WholePart(a, b, segs[0], path, depth, m), WholeParts(a, b, segs[1..], path, depth, m));
    }
  }

  lemma NotBeforeItself(p: Path)
    ensures !PathBefore(p, p)
  {
    forall n | 0 <= n < |p|
      ensures !PartsAt(p, p, n)
    {
      if p[n].Key? { LessTotal(p[n].key, p[n].key); }
    }
  }

  /** The changes come in the order of their paths, at most 500 of them, and no path comes twice. */
  lemma ChangesInOrder(a: Json, b: Json, path: Path, depth: nat, m: Masks)
    ensures var changes := Diff(Own(a), Own(b), path, depth, m);
      && InOrder(changes) && |changes| <= MAX_CHANGES
      && forall i, j | 0 <= i < j < |changes| :: changes[i].path != changes[j].path
  {
    DiffIsStart(Own(a), Own(b), path, depth, m);
    WholeInOrder(Own(a), Own(b), path, depth, m);
    var changes := Diff(Own(a), Own(b), path, depth, m);
    forall i, j | 0 <= i < j < |changes|
      ensures changes[i].path != changes[j].path
    {
      assert PathBefore(changes[i].path, changes[j].path);
      NotBeforeItself(changes[i].path);
    }
  }

  // ----- which paths are reported

  /** The values differ in more than the order of keys. */
  ghost predicate Unlike(a: Held, b: Held) {
    a.Method? != b.Method? || (!a.Method? && !Same(Flat(a), Flat(b)))
  }

  predicate Containers(a: Json, b: Json) {
    (a.Arr? && b.Arr?) || (a.Obj? && b.Obj?)
  }

  /** The segment is a position or an own key of one of the values. */
  predicate Listed(a: Json, b: Json, seg: Segment) {
    Child(a, seg).Some? || Child(b, seg).Some?
  }

  /**
   Under `p` the values part: down to there both are lists or both objects and differ, and there one side has nothing,
   or they differ and cannot be looked into.
   */
  ghost predicate Reported(a: Held, b: Held, p: Path, depth: nat, m: Masks)
    decreases |p|
  {
    && Unlike(a, b)
    && if depth < MAX_DEPTH && Containers(Flat(a), Flat(b)) then
         && p != [] && Listed(Flat(a), Flat(b), p[0])
         && var x, y := Member(a, p[0], m), Member(b, p[0], m);
            if x.Some? && y.Some? then Reported(x.value, y.value, p[1..], depth + 1, m) else |p| == 1
       else p == []
  }

  ghost predicate HasPath(changes: seq<Change>, p: Path) {
    exists c | c in changes :: c.path == p
  }

  lemma SegmentsListed(a: Json, b: Json, seg: Segment)
    ensures seg in Segments(a, b) <==> Containers(a, b) && Listed(a, b, seg)
  {
    if Containers(a, b) && Listed(a, b, seg) { SegmentsCover(a, b, seg); }
    if seg in Segments(a, b) && a.Obj? {
      var keys := KeyList(a.fields) + KeyList(b.fields);
      SortRises(keys);
      var i :| 0 <= i < |SortKeys(keys)| && Segments(a, b)[i] == seg;
      assert SortKeys(keys)[i] in Elems(keys);
      HasKey(a.fields, seg.key);
      HasKey(b.fields, seg.key);
    }
  }

  lemma HasPathJoin(x: seq<Change>, y: seq<Change>, p: Path)
    ensures HasPath(x + y, p) <==> HasPath(x, p) || HasPath(y, p)
  {
    assert forall c :: c in x + y <==> c in x || c in y;
  }

  lemma HasPathOne(c: Change, p: Path)
    ensures HasPath([c], p) <==> c.path == p
  {
    assert c in [c];
  }

  lemma FirstSegment(path: Path, seg: Segment, p: Path)
    requires path + [seg] <= path + p
    ensures p != [] && p[0] == seg
  {
    assert (path + [seg])[|path|] == seg == (path + p)[|path|];
  }

  /** The changes under one segment lead through it. */
  lemma PartNeedsSegment(a: Held, b: Held, seg: Segment, path: Path, depth: nat, m: Masks, p: Path)
    requires depth < MAX_DEPTH && HasPath(WholePart(a, b, seg, path, depth, m), path + p)
    ensures p != [] && p[0] == seg
  {
    var c :| c in WholePart(a, b, seg, path, depth, m) && c.path == path + p;
    PartUnder(a, b, seg, path, depth, m, c);
    FirstSegment(path, seg, p);
  }

  lemma {:induction false} PartsPaths(a: Held, b: Held, segs: seq<Segment>, path: Path, depth: nat, m: Masks, p: Path)
    requires depth < MAX_DEPTH
    ensures HasPath(WholeParts(a, b, segs, path, depth, m), path + p) <==>
      p != [] && p[0] in segs && HasPath(WholePart(a, b, p[0], path, depth, m), path + p)
    decreases |segs|
  {
    if segs != [] {
      PartsPaths(a, b, segs[1..], path, depth, m, p);
      HasPathJoin(WholePart(a, b, segs[0], path, depth, m), WholeParts(a, b, segs[1..], path, depth, m), path + p);
      if HasPath(WholePart(a, b, segs[0], path, depth, m), path + p) {
        PartNeedsSegment(a, b, segs[0], path, depth, m, p);
      }
    }
  }

  /** What one side only has is one change, at the segment itself. */
  lemma OneSidePath(a: Held, b: Held, path: Path, depth: nat, m: Masks, p: Path)
    requires depth < MAX_DEPTH && p != [] && Listed(Flat(a), Flat(b), p[0])
    requires Member(a, p[0], m).None? || Member(b, p[0], m).None?
    ensures HasPath(WholePart(a, b, p[0], path, depth, m), path + p) <==> |p| == 1
  {
    var x, y := Member(a, p[0], m), Member(b, p[0], m);
    assert x.Some? || y.Some?;
    var c := FieldChange(path + [p[0]], x, y, m);
    assert WholePart(a, b, p[0], path, depth, m) == [c] && c.path == path + [p[0]];
    HasPathOne(c, path + p);
    if |p| == 1 { assert p == [p[0]]; }
  }

  lemma {:induction false} PartPaths(a: Held, b: Held, path: Path, depth: nat, m: Masks, p: Path)
    requires depth < MAX_DEPTH && p != [] && Member(a, p[0], m).Some? && Member(b, p[0], m).Some?
    ensures HasPath(WholePart(a, b, p[0], path, depth, m), path + p) <==>
      Reported(Member(a, p[0], m).value, Member(b, p[0], m).value, p[1..], depth + 1, m)
    decreases |p|, 0
  {
    var x, y := Member(a, p[0], m).value, Member(b, p[0], m).value;
    WholePaths(x, y, path + [p[0]], depth + 1, m, p[1..]);
    assert path + p == path + [p[0]] + p[1..];
    assert WholePart(a, b, p[0], path, depth, m) == Whole(x, y, path + [p[0]], depth + 1, m);
  }

  lemma {:induction false} WholePaths(a: Held, b: Held, path: Path, depth: nat, m: Masks, p: Path)
    ensures HasPath(Whole(a, b, path, depth, m), path + p) <==> Reported(a, b, p, depth, m)
    decreases |p|, 1
  {
    EqualIsSame(Flat(a), Flat(b));
    if Unlike(a, b) {
      if depth < MAX_DEPTH && Containers(Flat(a), Flat(b)) {
        PartsPaths(a, b, Segments(Flat(a), Flat(b)), path, depth, m, p);
        if p != [] {
          SegmentsListed(Flat(a), Flat(b), p[0]);
          if Member(a, p[0], m).Some? && Member(b, p[0], m).Some? {
            PartPaths(a, b, path, depth, m, p);
          } else if Listed(Flat(a), Flat(b), p[0]) {
            OneSidePath(a, b, path, depth, m, p);
          }
        }
      } else {
        HasPathOne(FieldChange(path, Some(a), Some(b), m), path + p);
        assert path == path + p <==> p == [];
      }
    }
  }

  /** Exactly the paths where the values part are reported, unless the cap is reached; beyond it, only such paths. */
  lemma ReportedExactly(a: Json, b: Json, path: Path, depth: nat, m: Masks, p: Path)
    ensures var changes := Diff(Own(a), Own(b), path, depth, m);
      && (HasPath(changes, path + p) ==> Reported(Own(a), Own(b), p, depth, m))
      && (|changes| < MAX_CHANGES && Reported(Own(a), Own(b), p, depth, m) ==> HasPath(changes, path + p))
  {
    DiffIsStart(Own(a), Own(b), path, depth, m);
    WholePaths(Own(a), Own(b), path, depth, m, p);
  }
}
