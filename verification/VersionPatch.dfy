/** Applying a diff as a patch: what a list of changes means. */
module VersionPatch {
  import opened Text
  import opened Digraph
  import opened SortedKeys
  import opened Json
  import opened CanonicalJson
  import opened VersionDiff

  // ----- changing one child

  function Without(fields: seq<Field>, key: string): seq<Field> {
    if fields == [] then []
    else (if fields[0].key == key then [] else [fields[0]]) + Without(fields[1..], key)
  }

  /**
   Sets the child under a segment, or removes it when there is no value. Removing a position
   of an array shortens the array to that position.
   */
  function Put(v: Json, seg: Segment, value: Option<Json>): Json {
    if v.Arr? && seg.Index? then
      if value.None? then (if seg.index < |v.items| then Arr(v.items[..seg.index]) else v)
      else if seg.index < |v.items| then Arr(v.items[seg.index := value.value])
      else if seg.index == |v.items| then Arr(v.items + [value.value])
      else v
    else if v.Obj? && seg.Key? then
      var i := Find(v.fields, seg.key);
      if value.None? then Obj(Without(v.fields, seg.key))
      else if i < |v.fields| then Obj(v.fields[i := Field(seg.key, value.value)])
      else Obj(v.fields + [Field(seg.key, value.value)])
    else v
  }

  /** The segment names a child that exists or can be added. */
  ghost predicate Fits(v: Json, seg: Segment) {
    (v.Arr? && seg.Index? && seg.index <= |v.items|) || (v.Obj? && seg.Key?)
  }

  lemma FindIs(fields: seq<Field>, key: string, i: nat)
    requires i <= |fields| && (i < |fields| ==> fields[i].key == key) && forall j | 0 <= j < i :: fields[j].key != key
    ensures Find(fields, key) == i
  {
  }

  /** Setting a child changes that child and no other. */
  lemma ChildPut(v: Json, seg: Segment, x: Json, t: Segment)
    requires Fits(v, seg)
    ensures SameKind(Put(v, seg, Some(x)), v)
    ensures Child(Put(v, seg, Some(x)), t) == if t == seg then Some(x) else Child(v, t)
  {
    if v.Obj? && t.Key? {
      var i, j := Find(v.fields, seg.key), Find(v.fields, t.key);
      var fields := Put(v, seg, Some(x)).fields;
      if t == seg {
        FindIs(fields, t.key, i);
      } else {
        FindIs(fields, t.key, if j < |v.fields| then j else |fields|);
      }
    }
  }

  function Lookup(fields: seq<Field>, key: string): Option<Json> {
    var i := Find(fields, key);
    if i < |fields| then Some(fields[i].value) else None
  }

  lemma LookupStep(first: Field, rest: seq<Field>, key: string)
    ensures Lookup([first] + rest, key) == if first.key == key then Some(first.value) else Lookup(rest, key)
  {
    assert ([first] + rest)[1..] == rest;
  }

  lemma {:induction false} LookupWithout(fields: seq<Field>, key: string, other: string)
    ensures Lookup(Without(fields, key), other) == if other == key then None else Lookup(fields, other)
  {
    if fields != [] {
      var rest := Without(fields[1..], key);
      LookupWithout(fields[1..], key, other);
      assert fields == [fields[0]] + fields[1..];
      LookupStep(fields[0], fields[1..], other);
      if fields[0].key == key {
        assert Without(fields, key) == rest;
      } else {
        LookupStep(fields[0], rest, other);
      }
    }
  }

  /** Removing a child: gone, and in an array everything behind it too. */
  lemma ChildRemoved(v: Json, seg: Segment, t: Segment)
    requires Fits(v, seg)
    ensures SameKind(Put(v, seg, None), v)
    ensures Child(Put(v, seg, None), t) ==
      if t == seg || (v.Arr? && t.Index? && seg.index < t.index) then None else Child(v, t)
  {
    if v.Obj? && t.Key? { LookupWithout(v.fields, seg.key, t.key); }
  }

  lemma PutTwice(v: Json, seg: Segment, x: Json, y: Json)
    requires Child(v, seg).Some?
    ensures Put(Put(v, seg, Some(x)), seg, Some(y)) == Put(v, seg, Some(y))
  {
    if v.Obj? { FindIs(Put(v, seg, Some(x)).fields, seg.key, Find(v.fields, seg.key)); }
  }

  lemma PutBack(v: Json, seg: Segment, x: Json)
    requires Child(v, seg) == Some(x)
    ensures Put(v, seg, Some(x)) == v
  {
  }

  // ----- applying changes

  datatype Effect = Set(value: Json) | Remove | Keep

  /** What a change asks for, as far as it shows it: only a JSON value can be set. */
  function EffectOf(c: Change): Effect {
    if c.kind == Removed then Remove
    else if c.after.Some? && c.after.value.Full? && c.after.value.value.Own? then Set(c.after.value.value.json)
    else Keep
  }

  /** A place whose parent is missing is left alone. */
  function SetAt(v: Json, path: Path, e: Effect): Json
    decreases |path|
  {
    if e.Keep? then v
    else if path == [] then (if e.Set? then e.value else v)
    else if |path| == 1 then Put(v, path[0], if e.Set? then Some(e.value) else None)
    else if Child(v, path[0]).None? then v
    else Put(v, path[0], Some(SetAt(Child(v, path[0]).value, path[1..], e)))
  }

  /** Applies a change at its path after the first `n` segments. */
  function Apply(v: Json, c: Change, n: nat): Json {
    if n <= |c.path| then SetAt(v, c.path[n..], EffectOf(c)) else v
  }

  function ApplyAll(v: Json, changes: seq<Change>, n: nat): Json
    decreases |changes|
  {
    if changes == [] then v else ApplyAll(Apply(v, changes[0], n), changes[1..], n)
  }

  lemma {:induction false} ApplyAppend(v: Json, a: seq<Change>, b: seq<Change>, n: nat)
    ensures ApplyAll(v, a + b, n) == ApplyAll(ApplyAll(v, a, n), b, n)
    decreases |a|
  {
    if a == [] {
      assert a + b == b;
    } else {
      assert (a + b)[1..] == a[1..] + b;
      ApplyAppend(Apply(v, a[0], n), a[1..], b, n);
    }
  }

  lemma ApplyOne(v: Json, c: Change, n: nat)
    ensures ApplyAll(v, [c], n) == Apply(v, c, n)
  {
    assert [c][1..] == [];
  }

  /** A single change right below `n`. */
  lemma SingleChange(v: Json, c: Change, n: nat, seg: Segment)
    requires |c.path| == n + 1 && c.path[n] == seg && !EffectOf(c).Keep?
    ensures ApplyAll(v, [c], n) == Put(v, seg, if EffectOf(c).Set? then Some(EffectOf(c).value) else None)
  {
    ApplyOne(v, c, n);
    assert c.path[n..] == [seg];
  }

  /** All changes are below `seg` at position `n`, and only proper descendants are removed. */
  ghost predicate Below(changes: seq<Change>, n: nat, seg: Segment) {
    forall c | c in changes :: n < |c.path| && c.path[n] == seg && (EffectOf(c).Remove? ==> n + 1 < |c.path|)
  }

  lemma ApplyBelow(v: Json, c: Change, n: nat, seg: Segment)
    requires Child(v, seg).Some? && n < |c.path| && c.path[n] == seg && (EffectOf(c).Remove? ==> n + 1 < |c.path|)
    ensures Apply(v, c, n) == Put(v, seg, Some(Apply(Child(v, seg).value, c, n + 1)))
  {
    assert c.path[n..][1..] == c.path[n + 1..];
    if EffectOf(c).Keep? { PutBack(v, seg, Child(v, seg).value); }
  }

  /** Changes below one child change just that child. */
  lemma {:induction false} ApplyAllBelow(v: Json, changes: seq<Change>, n: nat, seg: Segment)
    requires Child(v, seg).Some? && Below(changes, n, seg)
    ensures ApplyAll(v, changes, n) == Put(v, seg, Some(ApplyAll(Child(v, seg).value, changes, n + 1)))
    decreases |changes|
  {
    var x := Child(v, seg).value;
    if changes == [] {
      PutBack(v, seg, x);
    } else {
      var y := Apply(x, changes[0], n + 1);
      ApplyBelow(v, changes[0], n, seg);
      ChildPut(v, seg, y, seg);
      ApplyAllBelow(Put(v, seg, Some(y)), changes[1..], n, seg);
      PutTwice(v, seg, y, ApplyAll(y, changes[1..], n + 1));
    }
  }

  /** Changes below a missing child change nothing. */
  lemma {:induction false} ApplyAllMissing(v: Json, changes: seq<Change>, n: nat, seg: Segment)
    requires Child(v, seg).None? && forall c | c in changes :: n + 1 < |c.path| && c.path[n] == seg
    ensures ApplyAll(v, changes, n) == v
    decreases |changes|
  {
    if changes != [] {
      assert changes[0] in changes && changes[0].path[n..][0] == seg;
      assert Apply(v, changes[0], n) == v;
      ApplyAllMissing(v, changes[1..], n, seg);
    }
  }

  // ----- the changes of a diff

  /** Nothing is masked or truncated. */
  ghost predicate Plain(changes: seq<Change>) {
    forall c | c in changes :: !c.sensitive && c.before != Some(Truncated) && c.after != Some(Truncated)
  }

  /** All paths extend `path`, and the value at `path` itself is not removed. */
  ghost predicate Within(changes: seq<Change>, path: Path) {
    forall c | c in changes :: path <= c.path && (EffectOf(c).Remove? ==> |path| < |c.path|)
  }

  ghost predicate Deeper(changes: seq<Change>, path: Path) {
    forall c | c in changes :: path <= c.path && |path| < |c.path|
  }

  lemma WithinBelow(changes: seq<Change>, path: Path, seg: Segment)
    requires Within(changes, path + [seg])
    ensures Deeper(changes, path) && Below(changes, |path|, seg)
  {
    assert path <= path + [seg] && (path + [seg])[|path|] == seg;
  }

  lemma {:induction false} DiffWithin(a: Held, b: Held, path: Path, depth: nat, m: Masks)
    ensures Within(Diff(a, b, path, depth, m), path)
    ensures Open(a, b, depth) ==> Deeper(Diff(a, b, path, depth, m), path)
    decreases MAX_DEPTH - depth, 2
  {
    if Open(a, b, depth) {
      var all := Collect(a, b, Segments(Flat(a), Flat(b)), path, depth, m, []);
      CollectDeeper(a, b, Segments(Flat(a), Flat(b)), path, depth, m, []);
      assert forall c | c in Start(all) :: c in all;
    }
  }

  lemma {:induction false} CollectDeeper(a: Held, b: Held, segs: seq<Segment>, path: Path, depth: nat, m: Masks,
      found: seq<Change>)
    requires depth < MAX_DEPTH && Deeper(found, path)
    ensures Deeper(Collect(a, b, segs, path, depth, m, found), path)
    decreases MAX_DEPTH - depth, 1, |segs|
  {
    if segs != [] && |found| < MAX_CHANGES {
      ChildDeeper(a, b, segs[0], path, depth, m);
      CollectDeeper(a, b, segs[1..], path, depth, m, found + DiffChild(a, b, segs[0], path, depth, m));
    }
  }

  lemma {:induction false} ChildDeeper(a: Held, b: Held, seg: Segment, path: Path, depth: nat, m: Masks)
    requires depth < MAX_DEPTH
    ensures Deeper(DiffChild(a, b, seg, path, depth, m), path)
    decreases MAX_DEPTH - depth, 0
  {
    var x, y := Member(a, seg, m), Member(b, seg, m);
    if x.Some? && y.Some? {
      DiffWithin(x.value, y.value, path + [seg], depth + 1, m);
      WithinBelow(Diff(x.value, y.value, path + [seg], depth + 1, m), path, seg);
    }
  }

  /** The changes of the listed segments, without the cap. */
  function AllChanges(a: Held, b: Held, segs: seq<Segment>, path: Path, depth: nat, m: Masks): seq<Change>
    requires depth < MAX_DEPTH
    decreases |segs|
  {
    if segs == [] then [] else DiffChild(a, b, segs[0], path, depth, m) + AllChanges(a, b, segs[1..], path, depth, m)
  }

  lemma {:induction false} UncappedCollect(a: Held, b: Held, segs: seq<Segment>, path: Path, depth: nat, m: Masks,
      found: seq<Change>)
    requires depth < MAX_DEPTH && |Collect(a, b, segs, path, depth, m, found)| < MAX_CHANGES
    ensures Collect(a, b, segs, path, depth, m, found) == found + AllChanges(a, b, segs, path, depth, m)
    decreases |segs|
  {
    if segs != [] && |found| < MAX_CHANGES {
      var more := DiffChild(a, b, segs[0], path, depth, m);
      UncappedCollect(a, b, segs[1..], path, depth, m, found + more);
      JoinThree(found, more, AllChanges(a, b, segs[1..], path, depth, m));
    }
  }

  lemma UncappedDiff(a: Held, b: Held, path: Path, depth: nat, m: Masks)
    requires Open(a, b, depth) && |Diff(a, b, path, depth, m)| < MAX_CHANGES
    ensures Diff(a, b, path, depth, m) == AllChanges(a, b, Segments(Flat(a), Flat(b)), path, depth, m)
  {
    var all := AllChanges(a, b, Segments(Flat(a), Flat(b)), path, depth, m);
    UncappedCollect(a, b, Segments(Flat(a), Flat(b)), path, depth, m, []);
    assert [] + all == all;
  }

  lemma {:induction false} AllChangesHas(a: Held, b: Held, segs: seq<Segment>, path: Path, depth: nat, m: Masks,
      seg: Segment)
    requires depth < MAX_DEPTH && seg in segs
    ensures |DiffChild(a, b, seg, path, depth, m)| <= |AllChanges(a, b, segs, path, depth, m)|
    ensures forall c | c in DiffChild(a, b, seg, path, depth, m) :: c in AllChanges(a, b, segs, path, depth, m)
  {
    if seg != segs[0] { AllChangesHas(a, b, segs[1..], path, depth, m, seg); }
  }

  ghost predicate DistinctSegments(segs: seq<Segment>) {
    forall i, j | 0 <= i < j < |segs| :: segs[i] != segs[j]
  }

  lemma SegmentsDistinct(a: Json, b: Json)
    ensures DistinctSegments(Segments(a, b))
  {
    if a.Obj? && b.Obj? {
      var keys := KeyList(a.fields) + KeyList(b.fields);
      SortRises(keys);
      RisingDistinct(SortKeys(keys));
    }
  }

  lemma SegmentsOfArray(a: Json, b: Json)
    ensures a.Arr? && b.Arr? ==> forall j | 0 <= j < |Segments(a, b)| :: Segments(a, b)[j] == Index(j)
    ensures a.Obj? && b.Obj? ==> forall j | 0 <= j < |Segments(a, b)| :: Segments(a, b)[j].Key?
  {
  }

  // ----- what patching leaves under each key

  /** Where a diff is taken. */
  datatype Spot = Spot(path: Path, depth: nat, m: Masks)

  function ChangesAt(a: Json, b: Json, seg: Segment, s: Spot): seq<Change>
    requires s.depth < MAX_DEPTH
  {
    DiffChild(Own(a), Own(b), seg, s.path, s.depth, s.m)
  }

  /** The name is found in every object. */
  predicate InheritedAt(v: Json, seg: Segment, m: Masks) {
    v.Obj? && seg.Key? && Inherited(seg.key, Root, m).Some?
  }

  /** A new `__proto__` that is compared with the root object key by key, or found equal to it. */
  predicate Swallowed(y: Json, seg: Segment, depth: nat) {
    seg == Key(PROTO) && y.Obj? && (y == Obj([]) || depth + 1 < MAX_DEPTH)
  }

  function Outcome(a: Json, b: Json, seg: Segment, s: Spot): Option<Json>
    requires s.depth < MAX_DEPTH
  {
    var x, y := Child(a, seg), Child(b, seg);
    if x.Some? &&
        (y.Some? || InheritedAt(b, seg, s.m)) then Some(ApplyAll(x.value, ChangesAt(a, b, seg, s), |s.path| + 1))
    else if x.None? && y.Some? && !Swallowed(y.value, seg, s.depth) then y
    else None
  }

  /** The outcomes of all segments, in order. */
  function Goals(a: Json, b: Json, s: Spot): (goals: seq<Option<Json>>)
    requires s.depth < MAX_DEPTH
    ensures |goals| == |Segments(a, b)| &&
      forall i | 0 <= i < |goals| :: goals[i] == Outcome(a, b, Segments(a, b)[i], s)
  {
    seq(|Segments(a, b)|, i requires 0 <= i < |Segments(a, b)| => Outcome(a, b, Segments(a, b)[i], s))
  }

  /** The child still has its old value, or has gone as it will. */
  ghost predicate Untouched(v: Json, a: Json, seg: Segment, goal: Option<Json>) {
    Child(v, seg) == Child(a, seg) || (Child(v, seg).None? && goal.None?)
  }

  /** The first `k` segments have been patched. */
  ghost predicate Patched(v: Json, a: Json, segs: seq<Segment>, goals: seq<Option<Json>>, k: nat) {
    && k <= |segs| == |goals| && SameKind(v, a)
    && (forall j | 0 <= j < k :: Child(v, segs[j]) == goals[j])
    && (forall j | k <= j < |segs| :: Untouched(v, a, segs[j], goals[j]))
    && (forall seg | seg !in segs :: Child(v, seg).None?)
  }

  lemma PatchedStart(a: Json, b: Json, goals: seq<Option<Json>>)
    requires SameKind(a, b) && |goals| == |Segments(a, b)|
    ensures Patched(a, a, Segments(a, b), goals, 0)
  {
    forall seg | seg !in Segments(a, b)
      ensures Child(a, seg).None?
    {
      if Child(a, seg).Some? { SegmentsCover(a, b, seg); }
    }
  }

  lemma PatchPut(v: Json, a: Json, segs: seq<Segment>, goals: seq<Option<Json>>, k: nat)
    requires Patched(v, a, segs, goals, k) && k < |segs| && DistinctSegments(segs) && Fits(v, segs[k]) && goals[k].Some?
    ensures Patched(Put(v, segs[k], goals[k]), a, segs, goals, k + 1)
  {
    var u := Put(v, segs[k], goals[k]);
    forall t { ChildPut(v, segs[k], goals[k].value, t); }
    forall j | k + 1 <= j < |segs|
      ensures Untouched(u, a, segs[j], goals[j])
    {
      assert Untouched(v, a, segs[j], goals[j]);
    }
  }

  lemma PatchRemove(v: Json, a: Json, segs: seq<Segment>, goals: seq<Option<Json>>, k: nat)
    requires Patched(v, a, segs, goals, k) && k < |segs| && DistinctSegments(segs) && Fits(v, segs[k]) && goals[k].None?
    requires v.Arr? ==> forall j | 0 <= j < |segs| :: segs[j] == Index(j) && (k < j ==> goals[j].None?)
    ensures Patched(Put(v, segs[k], None), a, segs, goals, k + 1)
  {
    var u := Put(v, segs[k], None);
    forall t { ChildRemoved(v, segs[k], t); }
    forall j | k + 1 <= j < |segs|
      ensures Untouched(u, a, segs[j], goals[j])
    {
      assert Untouched(v, a, segs[j], goals[j]);
    }
  }

  /** In arrays, a position has an outcome exactly when the new array has it. */
  lemma GoalsOfArray(a: Json, b: Json, s: Spot, j: nat)
    requires s.depth < MAX_DEPTH && a.Arr? && b.Arr? && j < |Segments(a, b)|
    ensures Segments(a, b)[j] == Index(j) && (Goals(a, b, s)[j].Some? <==> j < |b.items|)
  {
  }

  /** A segment of the new value, or one that is still there, fits. */
  lemma NextFits(v: Json, a: Json, b: Json, k: nat, s: Spot)
    requires s.depth < MAX_DEPTH && SameKind(a, b) && k < |Segments(a, b)| &&
      Patched(v, a, Segments(a, b), Goals(a, b, s), k)
    requires Child(b, Segments(a, b)[k]).Some? || Child(v, Segments(a, b)[k]).Some?
    ensures Fits(v, Segments(a, b)[k])
  {
    SegmentsOfArray(a, b);
    if a.Arr? && k > 0 {
      GoalsOfArray(a, b, s, k);
      GoalsOfArray(a, b, s, k - 1);
      assert Child(v, Segments(a, b)[k - 1]) == Goals(a, b, s)[k - 1];
    }
  }

  // ----- patching one key

  /** The value after one more key. */
  ghost predicate Advances(v: Json, a: Json, b: Json, k: nat, s: Spot)
    requires s.depth < MAX_DEPTH && k < |Segments(a, b)|
  {
    Patched(ApplyAll(v, ChangesAt(a, b, Segments(a, b)[k], s), |s.path|), a, Segments(a, b), Goals(a, b, s), k + 1)
  }

  /** A change that shows its new value sets it. */
  lemma SetsValue(path: Path, x: Option<Held>, y: Json, m: Masks)
    requires Plain([FieldChange(path, x, Some(Own(y)), m)])
    ensures var c := FieldChange(path, x, Some(Own(y)), m); c.path == path && EffectOf(c) == Set(y)
  {
    assert FieldChange(path, x, Some(Own(y)), m) in [FieldChange(path, x, Some(Own(y)), m)];
  }

  lemma KeptBelow(a: Json, b: Json, seg: Segment, s: Spot)
    requires s.depth < MAX_DEPTH && Child(a, seg).Some? && (Child(b, seg).Some? || InheritedAt(b, seg, s.m))
    ensures Below(ChangesAt(a, b, seg, s), |s.path|, seg)
  {
    DiffWithin(Own(Child(a, seg).value), Member(Own(b), seg, s.m).value, s.path + [seg], s.depth + 1, s.m);
    WithinBelow(ChangesAt(a, b, seg, s), s.path, seg);
  }

  /** The key was there, and the code sees it on both sides. */
  lemma PatchKept(v: Json, a: Json, b: Json, k: nat, s: Spot)
    requires s.depth < MAX_DEPTH && SameKind(a, b) && k < |Segments(a, b)| &&
      Patched(v, a, Segments(a, b), Goals(a, b, s), k)
    requires var seg := Segments(a, b)[k]; Child(a, seg).Some? && (Child(b, seg).Some? || InheritedAt(b, seg, s.m))
    ensures Advances(v, a, b, k, s)
  {
    var seg, goals := Segments(a, b)[k], Goals(a, b, s);
    assert Untouched(v, a, seg, goals[k]);
    KeptBelow(a, b, seg, s);
    ApplyAllBelow(v, ChangesAt(a, b, seg, s), |s.path|, seg);
    NextFits(v, a, b, k, s);
    SegmentsDistinct(a, b);
    PatchPut(v, a, Segments(a, b), goals, k);
  }

  lemma GoneChanges(a: Json, b: Json, seg: Segment, s: Spot) returns (c: Change)
    requires s.depth < MAX_DEPTH && Child(a, seg).Some? && Child(b, seg).None? && !InheritedAt(b, seg, s.m)
    ensures ChangesAt(a, b, seg, s) == [c] && EffectOf(c) == Remove && c.path == s.path + [seg]
  {
    c := FieldChange(s.path + [seg], Some(Own(Child(a, seg).value)), None, s.m);
  }

  lemma RemoveMissing(v: Json, seg: Segment)
    requires Child(v, seg).None?
    ensures Put(v, seg, None) == v
  {
    if v.Obj? && seg.Key? { WithoutMissing(v.fields, seg.key); }
  }

  lemma {:induction false} WithoutMissing(fields: seq<Field>, key: string)
    requires Find(fields, key) == |fields|
    ensures Without(fields, key) == fields
  {
    if fields != [] {
      assert fields == [fields[0]] + fields[1..];
      WithoutMissing(fields[1..], key);
    }
  }

  /** The key was there, and the code sees it on the old side only. */
  lemma PatchGone(v: Json, a: Json, b: Json, k: nat, s: Spot)
    requires s.depth < MAX_DEPTH && SameKind(a, b) && k < |Segments(a, b)| &&
      Patched(v, a, Segments(a, b), Goals(a, b, s), k)
    requires var seg := Segments(a, b)[k]; Child(a, seg).Some? && Child(b, seg).None? && !InheritedAt(b, seg, s.m)
    ensures Advances(v, a, b, k, s)
  {
    var segs, goals := Segments(a, b), Goals(a, b, s);
    var c := GoneChanges(a, b, segs[k], s);
    SingleChange(v, c, |s.path|, segs[k]);
    if Child(v, segs[k]).Some? {
      NextFits(v, a, b, k, s);
      SegmentsDistinct(a, b);
      if a.Arr? {
        forall j | 0 <= j < |segs|
          ensures segs[j] == Index(j) && (k < j ==> goals[j].None?)
        {
          GoalsOfArray(a, b, s, j);
          GoalsOfArray(a, b, s, k);
        }
      }
      PatchRemove(v, a, segs, goals, k);
    } else {
      RemoveMissing(v, segs[k]);
    }
  }

  /** A new `__proto__`: compared with the root object. */
  lemma NewProtoChanges(a: Json, b: Json, s: Spot)
    requires s.depth < MAX_DEPTH && a.Obj? && b.Obj? && Child(a, Key(PROTO)).None? && Child(b, Key(PROTO)).Some?
    ensures var cs, y := ChangesAt(a, b, Key(PROTO), s), Child(b, Key(PROTO)).value;
      if Swallowed(y, Key(PROTO), s.depth) then Deeper(cs, s.path + [Key(PROTO)])
      else cs == [FieldChange(s.path + [Key(PROTO)], Some(Root), Some(Own(y)), s.m)]
  {
    var y := Child(b, Key(PROTO)).value;
    assert ChangesAt(a, b, Key(PROTO), s) == Diff(Root, Own(y), s.path + [Key(PROTO)], s.depth + 1, s.m);
    EqualIsSame(Obj([]), y);
    SameEmpty(y);
    DiffWithin(Root, Own(y), s.path + [Key(PROTO)], s.depth + 1, s.m);
  }

  lemma MethodChanges(name: string, y: Json, path: Path, depth: nat, m: Masks)
    ensures Diff(Method(name), Own(y), path, depth, m) == [FieldChange(path, Some(Method(name)), Some(Own(y)), m)]
  {
  }

  /** Another new key. */
  lemma NewKeyChanges(a: Json, b: Json, seg: Segment, s: Spot)
    requires s.depth < MAX_DEPTH && seg != Key(PROTO) && Child(a, seg).None? && Child(b, seg).Some?
    ensures ChangesAt(a, b, seg, s) ==
      [FieldChange(s.path + [seg], Member(Own(a), seg, s.m), Some(Own(Child(b, seg).value)), s.m)]
  {
    var x := Member(Own(a), seg, s.m);
    assert x.None? || x.value.Method?;
    if x.Some? { MethodChanges(x.value.name, Child(b, seg).value, s.path + [seg], s.depth + 1, s.m); }
  }

  lemma PatchSwallowed(v: Json, a: Json, b: Json, k: nat, s: Spot)
    requires s.depth < MAX_DEPTH && SameKind(a, b) && k < |Segments(a, b)| &&
      Patched(v, a, Segments(a, b), Goals(a, b, s), k)
    requires var seg := Segments(a, b)[k];
      Child(a, seg).None? && Child(b, seg).Some? && Swallowed(Child(b, seg).value, seg, s.depth)
    ensures Advances(v, a, b, k, s)
  {
    var seg, cs := Segments(a, b)[k], ChangesAt(a, b, Segments(a, b)[k], s);
    NewProtoChanges(a, b, s);
    assert Untouched(v, a, seg, Goals(a, b, s)[k]);
    assert forall c | c in cs :: c.path[|s.path|] == (s.path + [seg])[|s.path|];
    ApplyAllMissing(v, cs, |s.path|, seg);
  }

  lemma PatchNew(v: Json, a: Json, b: Json, k: nat, s: Spot)
    requires s.depth < MAX_DEPTH && SameKind(a, b) && k < |Segments(a, b)| &&
      Patched(v, a, Segments(a, b), Goals(a, b, s), k)
    requires var seg := Segments(a, b)[k];
      Child(a, seg).None? && Child(b, seg).Some? && !Swallowed(Child(b, seg).value, seg, s.depth) &&
          Plain(ChangesAt(a, b, seg, s))
    ensures Advances(v, a, b, k, s)
  {
    var seg, cs := Segments(a, b)[k], ChangesAt(a, b, Segments(a, b)[k], s);
    if seg == Key(PROTO) { NewProtoChanges(a, b, s); } else { NewKeyChanges(a, b, seg, s); }
    SetsValue(s.path + [seg], Member(Own(a), seg, s.m), Child(b, seg).value, s.m);
    SingleChange(v, cs[0], |s.path|, seg);
    NextFits(v, a, b, k, s);
    SegmentsDistinct(a, b);
    PatchPut(v, a, Segments(a, b), Goals(a, b, s), k);
  }

  /** One key: the changes of its diff, applied to the value patched so far. */
  lemma PatchChild(v: Json, a: Json, b: Json, k: nat, s: Spot)
    requires s.depth < MAX_DEPTH && SameKind(a, b) && k < |Segments(a, b)| &&
      Patched(v, a, Segments(a, b), Goals(a, b, s), k)
    requires Plain(ChangesAt(a, b, Segments(a, b)[k], s))
    ensures Advances(v, a, b, k, s)
  {
    var seg := Segments(a, b)[k];
    assert Child(a, seg).Some? || Child(b, seg).Some? by {
      if Child(a, seg).None? && Child(b, seg).None? { SegmentsOwn(a, b, seg); }
    }
    if Child(a, seg).None? {
      if Swallowed(Child(b, seg).value, seg, s.depth) { PatchSwallowed(v, a, b, k, s); } else {
        PatchNew(v, a, b, k, s);
      }
    } else if Child(b, seg).Some? || InheritedAt(b, seg, s.m) {
      PatchKept(v, a, b, k, s);
    } else {
      PatchGone(v, a, b, k, s);
    }
  }

  lemma {:induction false} PatchSegments(v: Json, a: Json, b: Json, k: nat, s: Spot)
    requires s.depth < MAX_DEPTH && SameKind(a, b) && Patched(v, a, Segments(a, b), Goals(a, b, s), k)
    requires Plain(AllChanges(Own(a), Own(b), Segments(a, b)[k..], s.path, s.depth, s.m))
    ensures var cs := AllChanges(Own(a), Own(b), Segments(a, b)[k..], s.path, s.depth, s.m);
      Patched(ApplyAll(v, cs, |s.path|), a, Segments(a, b), Goals(a, b, s), |Segments(a, b)|)
    decreases |Segments(a, b)| - k
  {
    var segs := Segments(a, b);
    if k < |segs| {
      var cs, rest := ChangesAt(a, b, segs[k], s), AllChanges(Own(a), Own(b), segs[k + 1..], s.path, s.depth, s.m);
      assert segs[k..][1..] == segs[k + 1..];
      assert AllChanges(Own(a), Own(b), segs[k..], s.path, s.depth, s.m) == cs + rest;
      assert forall c | c in cs :: c in cs + rest;
      assert forall c | c in rest :: c in cs + rest;
      PatchChild(v, a, b, k, s);
      PatchSegments(ApplyAll(v, cs, |s.path|), a, b, k + 1, s);
      ApplyAppend(v, cs, rest, |s.path|);
    }
  }

  // ----- exactly when patching gives the new value

  ghost predicate PatchableChild(a: Json, b: Json, seg: Segment, depth: nat, m: Masks)
    decreases a, 0
  {
    var x, y := Child(a, seg), Child(b, seg);
    if x.Some? && y.Some? then Patchable(x.value, y.value, depth + 1, m)
    else if x.Some? then !InheritedAt(b, seg, m)
    else if y.Some? then !Swallowed(y.value, seg, depth)
    else true
  }

  /**
   Where the diff looks into both values, no inherited name is on the old side only, and no
   `__proto__` that holds an object is on the new side only.
   */
  ghost predicate Patchable(a: Json, b: Json, depth: nat, m: Masks)
    decreases a, 2
  {
    Same(a, b) || depth >= MAX_DEPTH || !SameKind(a, b) || PatchableInside(a, b, depth, m)
  }

  ghost predicate PatchableInside(a: Json, b: Json, depth: nat, m: Masks)
    decreases a, 1
  {
    forall seg :: PatchableChild(a, b, seg, depth, m)
  }

  lemma SameSelf(v: Json)
    ensures Same(v, v)
  {
    EqualIsSame(v, v);
  }

  lemma ChildResult(v: Json, a: Json, b: Json, seg: Segment, s: Spot)
    requires s.depth < MAX_DEPTH && SameKind(a, b) && Patched(v, a, Segments(a, b), Goals(a, b, s), |Segments(a, b)|)
    ensures Child(v, seg) == Outcome(a, b, seg, s)
  {
    var segs := Segments(a, b);
    if seg in segs {
      var j :| 0 <= j < |segs| && segs[j] == seg;
      assert Child(v, segs[j]) == Goals(a, b, s)[j];
    } else {
      if Child(a, seg).Some? || Child(b, seg).Some? { SegmentsCover(a, b, seg); }
    }
  }

  lemma PlainChild(a: Json, b: Json, seg: Segment, s: Spot)
    requires s.depth < MAX_DEPTH && SameKind(a, b) && (Child(a, seg).Some? || Child(b, seg).Some?)
    requires var cs := AllChanges(Own(a), Own(b), Segments(a, b), s.path, s.depth, s.m); Plain(cs) && |cs| < MAX_CHANGES
    ensures Plain(ChangesAt(a, b, seg, s)) && |ChangesAt(a, b, seg, s)| < MAX_CHANGES
  {
    SegmentsCover(a, b, seg);
    AllChangesHas(Own(a), Own(b), Segments(a, b), s.path, s.depth, s.m, seg);
  }

  lemma {:induction false} BothAgree(a: Json, b: Json, seg: Segment, s: Spot)
    requires s.depth < MAX_DEPTH && Child(a, seg).Some? && Child(b, seg).Some?
    requires Plain(ChangesAt(a, b, seg, s)) && |ChangesAt(a, b, seg, s)| < MAX_CHANGES
    ensures Same(Outcome(a, b, seg, s).value, Child(b, seg).value) <==>
      Patchable(Child(a, seg).value, Child(b, seg).value, s.depth + 1, s.m)
    decreases a, 0, 0
  {
    PatchDiff(Child(a, seg).value, Child(b, seg).value, s.path + [seg], s.depth + 1, s.m);
  }

  lemma {:induction false} AgreesWhenPatchable(v: Json, a: Json, b: Json, seg: Segment, s: Spot)
    requires s.depth < MAX_DEPTH && SameKind(a, b) && Child(v, seg) == Outcome(a, b, seg, s)
    requires var cs := AllChanges(Own(a), Own(b), Segments(a, b), s.path, s.depth, s.m); Plain(cs) && |cs| < MAX_CHANGES
    ensures Agree(v, b, seg) <==> PatchableChild(a, b, seg, s.depth, s.m)
    decreases a, 0, 1
  {
    var x, y := Child(a, seg), Child(b, seg);
    if x.Some? && y.Some? {
      PlainChild(a, b, seg, s);
      BothAgree(a, b, seg, s);
    } else if y.Some? {
      SameSelf(y.value);
    }
  }

  lemma PatchResult(a: Json, b: Json, s: Spot)
    requires Open(Own(a), Own(b), s.depth)
    requires var cs := Diff(Own(a), Own(b), s.path, s.depth, s.m); Plain(cs) && |cs| < MAX_CHANGES
    ensures Diff(Own(a), Own(b), s.path, s.depth, s.m) ==
      AllChanges(Own(a), Own(b), Segments(a, b), s.path, s.depth, s.m)
    ensures var v := ApplyAll(a, Diff(Own(a), Own(b), s.path, s.depth, s.m), |s.path|);
      Patched(v, a, Segments(a, b), Goals(a, b, s), |Segments(a, b)|)
  {
    UncappedDiff(Own(a), Own(b), s.path, s.depth, s.m);
    PatchedStart(a, b, Goals(a, b, s));
    assert Segments(a, b)[0..] == Segments(a, b);
    PatchSegments(a, a, b, 0, s);
  }

  lemma {:induction false} SameWhenPatchable(v: Json, a: Json, b: Json, s: Spot)
    requires s.depth < MAX_DEPTH && SameKind(a, b) && Patched(v, a, Segments(a, b), Goals(a, b, s), |Segments(a, b)|)
    requires var cs := AllChanges(Own(a), Own(b), Segments(a, b), s.path, s.depth, s.m); Plain(cs) && |cs| < MAX_CHANGES
    ensures Same(v, b) <==> PatchableInside(a, b, s.depth, s.m)
    decreases a, 0, 2
  {
    forall seg
      ensures Agree(v, b, seg) <==> PatchableChild(a, b, seg, s.depth, s.m)
    {
      ChildResult(v, a, b, seg, s);
      AgreesWhenPatchable(v, a, b, seg, s);
    }
    SameByChildren(v, b);
    if PatchableInside(a, b, s.depth, s.m) {
      assert forall seg :: PatchableChild(a, b, seg, s.depth, s.m) ==> Agree(v, b, seg);
    }
    if Same(v, b) {
      assert forall seg :: Agree(v, b, seg) ==> PatchableChild(a, b, seg, s.depth, s.m);
    }
  }

  lemma ReplaceWhole(a: Json, c: Change, n: nat)
    requires |c.path| == n && EffectOf(c).Set?
    ensures ApplyAll(a, [c], n) == EffectOf(c).value
  {
    ApplyOne(a, c, n);
    assert c.path[n..] == [];
  }

  /**
   A diff below the cap in which nothing is masked or truncated, applied to the old value, gives the new one exactly
   when it can.
   */
  lemma {:induction false} PatchDiff(a: Json, b: Json, path: Path, depth: nat, m: Masks)
    requires var cs := Diff(Own(a), Own(b), path, depth, m); Plain(cs) && |cs| < MAX_CHANGES
    ensures Same(ApplyAll(a, Diff(Own(a), Own(b), path, depth, m), |path|), b) <==> Patchable(a, b, depth, m)
    decreases a, 2
  {
    EqualIsSame(a, b);
    if Open(Own(a), Own(b), depth) {
      var s := Spot(path, depth, m);
      PatchResult(a, b, s);
      SameWhenPatchable(ApplyAll(a, Diff(Own(a), Own(b), path, depth, m), |path|), a, b, s);
    } else if !Same(a, b) {
      SetsValue(path, Some(Own(a)), b, m);
      ReplaceWhole(a, FieldChange(path, Some(Own(a)), Some(Own(b)), m), |path|);
      SameSelf(b);
    }
  }

  // ----- where no inherited name occurs, and where one does

  ghost predicate NoInherited(v: Json, m: Masks) {
    match v
    case Arr(items) => forall item | item in items :: NoInherited(item, m)
    case Obj(fields) => forall f | f in fields :: Inherited(f.key, Root, m).None? && NoInherited(f.value, m)
    case _ => true
  }

  lemma NoInheritedChild(v: Json, seg: Segment, m: Masks)
    requires NoInherited(v, m) && Child(v, seg).Some?
    ensures NoInherited(Child(v, seg).value, m) && (seg.Key? ==> Inherited(seg.key, Root, m).None?)
  {
    if v.Obj? { assert v.fields[Find(v.fields, seg.key)] in v.fields; }
  }

  /** Values without inherited names can always be patched. */
  lemma {:induction false} OrdinaryIsPatchable(a: Json, b: Json, depth: nat, m: Masks)
    requires NoInherited(a, m) && NoInherited(b, m)
    ensures Patchable(a, b, depth, m)
    decreases a
  {
    forall seg
      ensures PatchableChild(a, b, seg, depth, m)
    {
      var x, y := Child(a, seg), Child(b, seg);
      if x.Some? { NoInheritedChild(a, seg, m); }
      if y.Some? { NoInheritedChild(b, seg, m); }
      if x.Some? && y.Some? { OrdinaryIsPatchable(x.value, y.value, depth + 1, m); }
    }
  }

  lemma RemovedChanges(name: string, x: Json, path: Path, m: Masks)
    requires name != PROTO && m.inherits(name)
    ensures Diff(Own(Obj([Field(name, x)])), Own(Obj([])), path, 0, m) ==
      [FieldChange(path + [Key(name)], Some(Own(x)), Some(Method(name)), m)]
  {
    var a, b, seg := Obj([Field(name, x)]), Obj([]), Key(name);
    EqualIsSame(a, b);
    assert !Same(a, b) by { assert name in KeyList(a.fields) && name !in Elems(KeyList(b.fields)); }
    SegmentsCover(a, b, seg);
    OneSegment(a, seg);
    var c := FieldChange(path + [seg], Some(Own(x)), Some(Method(name)), m);
    assert DiffChild(Own(a), Own(b), seg, path, 0, m) == [c] && [] + [c] == [c] && [seg][1..] == [];
    assert Collect(Own(a), Own(b), [seg], path, 0, m, []) == Collect(Own(a), Own(b), [], path, 0, m, [c]) == [c];
  }

  lemma OneSegment(a: Json, seg: Segment)
    requires a.Obj? && |a.fields| == 1 && seg == Key(a.fields[0].key)
    ensures Segments(a, Obj([])) == [seg]
  {
    var keys := KeyList(a.fields) + KeyList([]);
    assert keys == [seg.key] && keys[1..] == [];
    assert SortKeys(keys) == [seg.key];
  }

  /** A removed field whose name every object inherits is reported as modified, and the patch does not remove it. */
  lemma RemovedYetModified(name: string, x: Json, path: Path, m: Masks)
    requires name != PROTO && m.inherits(name) && !m.sensitive(path + [Key(name)]) && m.size(x) <= MAX_TEXT
    ensures var a := Obj([Field(name, x)]); var cs := Diff(Own(a), Own(Obj([])), path, 0, m);
      |cs| == 1 && cs[0].kind == Modified && !Same(ApplyAll(a, cs, |path|), Obj([]))
  {
    var a, b := Obj([Field(name, x)]), Obj([]);
    RemovedChanges(name, x, path, m);
    assert Child(a, Key(name)).Some? && !PatchableChild(a, b, Key(name), 0, m);
    assert !Same(a, b) by { assert name in KeyList(a.fields) && name !in Elems(KeyList(b.fields)); }
    PatchDiff(a, b, path, 0, m);
  }

  lemma MethodIsNotProto(name: string)
    requires ObjectMethods(name)
    ensures name != PROTO
  {
    assert PROTO[0] == '_' && PROTO[2] == 'p' && |PROTO| == 9;
  }

  /** With the names that objects really inherit: true of a removed `toString`, and of each of the others. */
  lemma RemovedMethodIsModified(name: string, x: Json, path: Path, m: Masks)
    requires m.inherits == ObjectMethods && ObjectMethods(name)
    requires !m.sensitive(path + [Key(name)]) && m.size(x) <= MAX_TEXT
    ensures var a := Obj([Field(name, x)]); var cs := Diff(Own(a), Own(Obj([])), path, 0, m);
      |cs| == 1 && cs[0].kind == Modified && !Same(ApplyAll(a, cs, |path|), Obj([]))
  {
    MethodIsNotProto(name);
    RemovedYetModified(name, x, path, m);
  }

  lemma ToStringIsModified(x: Json, path: Path, m: Masks)
    requires m.inherits == ObjectMethods && !m.sensitive(path + [Key("toString")]) && m.size(x) <= MAX_TEXT
    ensures var a := Obj([Field("toString", x)]); var cs := Diff(Own(a), Own(Obj([])), path, 0, m);
      |cs| == 1 && cs[0].kind == Modified && !Same(ApplyAll(a, cs, |path|), Obj([]))
  {
    RemovedMethodIsModified("toString", x, path, m);
  }
}
