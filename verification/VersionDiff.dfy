/** The structural diff of two workflow definitions, with its cap, its depth limit and its masking. */
module VersionDiff {
  import opened Text
  import opened Digraph
  import opened SortedKeys
  import opened Json
  import opened CanonicalJson

  const MAX_CHANGES := 500
  const MAX_DEPTH := 12
  const MAX_TEXT := 4096
  const PROTO := "__proto__"

  // ----- what the code finds under a key

  /** A JSON value, the object from which all objects inherit, or one of its methods. */
  datatype Held = Own(json: Json) | Root | Method(name: string)

  /** The methods that a plain object inherits. */
  predicate ObjectMethods(name: string) {
    name in {"constructor", "hasOwnProperty", "isPrototypeOf", "propertyIsEnumerable", "toLocaleString", "toString",
             "valueOf", "__defineGetter__", "__defineSetter__", "__lookupGetter__", "__lookupSetter__"}
  }

  /** Which paths are sensitive, how long the serialized form of a value is, and which methods objects inherit. */
  datatype Masks = Masks(sensitive: Path -> bool, size: Json -> nat, inherits: string -> bool)

  /** `proto` is what stands under `__proto__`. */
  function Inherited(key: string, proto: Held, m: Masks): Option<Held> {
    if key == PROTO then Some(proto) else if m.inherits(key) then Some(Method(key)) else None
  }

  /** What `key in value` sees: the value's own child, or what it inherits. */
  function Member(a: Held, seg: Segment, m: Masks): Option<Held> {
    match a
    case Own(v) =>
      if Child(v, seg).Some? then Some(Own(Child(v, seg).value))
      else if v.Obj? && seg.Key? then Inherited(seg.key, Root, m)
      else None
    case Root => if seg.Key? then Inherited(seg.key, Own(Null), m) else None
    case Method(_) => None
  }

  /**
   The value as the code lists its keys: the root object has no keys of its own to list, and a method is no container.
   */
  function Flat(a: Held): Json {
    match a
    case Own(v) => v
    case Root => Obj([])
    case Method(_) => Null
  }

  /** The serialized canonical forms agree; a method has none. */
  predicate EqualHeld(a: Held, b: Held) {
    (a.Method? <==> b.Method?) && (!a.Method? ==> Equal(Flat(a), Flat(b)))
  }

  // ----- one change

  /** `Truncated` when the serialized value is longer than MAX_TEXT. */
  datatype Shown = Full(value: Held) | Truncated

  datatype ChangeKind = Added | Removed | Modified

  datatype Change = Change(path: Path, kind: ChangeKind, before: Option<Shown>, after: Option<Shown>, sensitive: bool)

  function Show(v: Option<Held>, m: Masks): Option<Shown> {
    if v.None? then None
    else if !v.value.Method? && m.size(Flat(v.value)) > MAX_TEXT then Some(Truncated)
    else Some(Full(v.value))
  }

  function FieldChange(path: Path, before: Option<Held>, after: Option<Held>, m: Masks): Change {
    var kind := if before.None? then Added else if after.None? then Removed else Modified;
    if m.sensitive(path) then Change(path, kind, None, None, true)
    else Change(path, kind, Show(before, m), Show(after, m), false)
  }

  // ----- the diff

  function Longer(m: nat, n: nat): nat {
    if m < n then n else m
  }

  function Indices(n: nat): (segs: seq<Segment>)
    ensures |segs| == n && forall i | 0 <= i < n :: segs[i] == Index(i)
  {
    seq(n, i requires 0 <= i < n => Index(i))
  }

  function KeySegments(keys: seq<string>): (segs: seq<Segment>)
    ensures |segs| == |keys| && forall i | 0 <= i < |keys| :: segs[i] == Key(keys[i])
  {
    seq(|keys|, i requires 0 <= i < |keys| => Key(keys[i]))
  }

  /** The positions or own keys of either value, in order. */
  function Segments(a: Json, b: Json): seq<Segment> {
    if a.Arr? && b.Arr? then Indices(Longer(|a.items|, |b.items|))
    else if a.Obj? && b.Obj? then KeySegments(SortKeys(KeyList(a.fields) + KeyList(b.fields)))
    else []
  }

  function Start(changes: seq<Change>): seq<Change> {
    if |changes| <= MAX_CHANGES then changes else changes[..MAX_CHANGES]
  }

  /** The values differ and are looked into. */
  predicate Open(a: Held, b: Held, depth: nat) {
    !EqualHeld(a, b) && depth < MAX_DEPTH && SameKind(Flat(a), Flat(b))
  }

  function Diff(a: Held, b: Held, path: Path, depth: nat, m: Masks): seq<Change>
    decreases MAX_DEPTH - depth, 2
  {
    if EqualHeld(a, b) then []
    else if !Open(a, b, depth) then [FieldChange(path, Some(a), Some(b), m)]
    else Start(Collect(a, b, Segments(Flat(a), Flat(b)), path, depth, m, []))
  }

  function DiffChild(a: Held, b: Held, seg: Segment, path: Path, depth: nat, m: Masks): seq<Change>
    requires depth < MAX_DEPTH
    decreases MAX_DEPTH - depth, 0
  {
    var x, y := Member(a, seg, m), Member(b, seg, m);
    if x.Some? && y.Some? then Diff(x.value, y.value, path + [seg], depth + 1, m)
    else if x.None? && y.None? then []
    else [FieldChange(path + [seg], x, y, m)]
  }

  /** Goes on from the changes found so far, and stops at the cap. */
  function Collect(a: Held, b: Held, segs: seq<Segment>, path: Path, depth: nat, m: Masks,
      found: seq<Change>): seq<Change>
    requires depth < MAX_DEPTH
    decreases MAX_DEPTH - depth, 1, |segs|
  {
    if segs == [] || |found| >= MAX_CHANGES then found
    else Collect(a, b, segs[1..], path, depth, m, found + DiffChild(a, b, segs[0], path, depth, m))
  }

  /** The changes of one key: the body of the loop. */
  method DiffKey(a: Held, b: Held, seg: Segment, path: Path, depth: nat, m: Masks) returns (more: seq<Change>)
    requires depth < MAX_DEPTH
    ensures more == DiffChild(a, b, seg, path, depth, m)
    decreases MAX_DEPTH - depth, 0
  {
    var x, y := Member(a, seg, m), Member(b, seg, m);
    more := [];
    if x.Some? && y.Some? {
      more := DiffHeld(x.value, y.value, path + [seg], depth + 1, m);
    } else if x.Some? || y.Some? {
      more := [FieldChange(path + [seg], x, y, m)];
    }
  }

  lemma CollectNext(a: Held, b: Held, segs: seq<Segment>, i: nat, path: Path, depth: nat, m: Masks, found: seq<Change>)
    requires depth < MAX_DEPTH && i < |segs| && |found| < MAX_CHANGES
    ensures Collect(a, b, segs[i..], path, depth, m, found) ==
      Collect(a, b, segs[i + 1..], path, depth, m, found + DiffChild(a, b, segs[i], path, depth, m))
  {
    assert segs[i..][1..] == segs[i + 1..];
  }

  lemma CollectStops(a: Held, b: Held, segs: seq<Segment>, path: Path, depth: nat, m: Masks, found: seq<Change>)
    requires depth < MAX_DEPTH && (segs == [] || |found| >= MAX_CHANGES)
    ensures Collect(a, b, segs, path, depth, m, found) == found
  {
  }

  /** The loop that pushes changes until the cap. */
  method DiffSegments(a: Held, b: Held, path: Path, depth: nat, m: Masks) returns (changes: seq<Change>)
    requires depth < MAX_DEPTH
    ensures changes == Collect(a, b, Segments(Flat(a), Flat(b)), path, depth, m, [])
    decreases MAX_DEPTH - depth, 1
  {
    changes := [];
    var segs := Segments(Flat(a), Flat(b));
    var i := 0;
    ghost var all := Collect(a, b, segs, path, depth, m, []);
    assert segs[0..] == segs;
    while i < |segs| && |changes| < MAX_CHANGES
      invariant 0 <= i <= |segs|
      invariant Collect(a, b, segs[i..], path, depth, m, changes) == all
    {
      CollectNext(a, b, segs, i, path, depth, m, changes);
      var more := DiffKey(a, b, segs[i], path, depth, m);
      changes, i := changes + more, i + 1;
    }
    CollectStops(a, b, segs[i..], path, depth, m, changes);
  }

  method DiffHeld(a: Held, b: Held, path: Path, depth: nat, m: Masks) returns (changes: seq<Change>)
    ensures changes == Diff(a, b, path, depth, m)
    decreases MAX_DEPTH - depth, 2
  {
    if EqualHeld(a, b) { return []; }
    if !Open(a, b, depth) { return [FieldChange(path, Some(a), Some(b), m)]; }
    changes := DiffSegments(a, b, path, depth, m);
    changes := Start(changes);
  }

  /** The operation on two JSON values. */
  method DiffFields(a: Json, b: Json, path: Path, depth: nat, m: Masks) returns (changes: seq<Change>)
    ensures changes == Diff(Own(a), Own(b), path, depth, m)
    ensures changes == [] <==> Alike(a, b, depth)
  {
    changes := DiffHeld(Own(a), Own(b), path, depth, m);
    DiffEmpty(a, b, path, depth, m);
  }

  // ----- when two values are the same, child by child

  lemma SegmentsCover(a: Json, b: Json, seg: Segment)
    requires SameKind(a, b) && (Child(a, seg).Some? || Child(b, seg).Some?)
    ensures seg in Segments(a, b)
  {
    if a.Arr? {
      assert Segments(a, b)[seg.index] == seg;
    } else {
      HasKey(a.fields, seg.key);
      HasKey(b.fields, seg.key);
      var keys := KeyList(a.fields) + KeyList(b.fields);
      SortRises(keys);
      assert seg.key in Elems(keys) && seg.key in SortKeys(keys);
      var i :| 0 <= i < |SortKeys(keys)| && SortKeys(keys)[i] == seg.key;
      assert Segments(a, b)[i] == seg;
    }
  }

  /** The children under one segment agree. */
  ghost predicate Agree(a: Json, b: Json, seg: Segment) {
    var x, y := Child(a, seg), Child(b, seg);
    (x.Some? <==> y.Some?) && (x.Some? && y.Some? ==> Same(x.value, y.value))
  }

  /** Containers of one kind are the same when all their children agree. */
  lemma SameByChildren(a: Json, b: Json)
    requires SameKind(a, b)
    ensures Same(a, b) <==> forall seg :: Agree(a, b, seg)
  {
    if a.Arr? {
      SameArrays(a, b);
    } else {
      SameObjects(a, b);
    }
  }

  lemma SameArrays(a: Json, b: Json)
    requires a.Arr? && b.Arr?
    ensures Same(a, b) <==> forall seg :: Agree(a, b, seg)
  {
    if forall seg :: Agree(a, b, seg) {
      assert Agree(a, b, Index(|a.items|)) && Agree(a, b, Index(|b.items|));
      assert |a.items| == |b.items|;
      forall i | 0 <= i < |a.items|
        ensures Same(a.items[i], b.items[i])
      {
        assert Agree(a, b, Index(i));
      }
    }
    if Same(a, b) {
      forall seg
        ensures Agree(a, b, seg)
      {
        assert seg.Index? && seg.index < |a.items| ==> Same(a.items[seg.index], b.items[seg.index]);
      }
    }
  }

  lemma SameObjects(a: Json, b: Json)
    requires a.Obj? && b.Obj?
    ensures Same(a, b) <==> forall seg :: Agree(a, b, seg)
  {
    if Same(a, b) {
      forall seg
        ensures Agree(a, b, seg)
      {
        SameFieldAgrees(a, b, seg);
      }
    }
    if forall seg :: Agree(a, b, seg) { AgreeingObjects(a, b); }
  }

  lemma SameFieldAgrees(a: Json, b: Json, seg: Segment)
    requires a.Obj? && b.Obj? && Same(a, b)
    ensures Agree(a, b, seg)
  {
    if seg.Key? {
      HasKey(a.fields, seg.key);
      HasKey(b.fields, seg.key);
      assert seg.key in Elems(KeyList(a.fields)) <==> seg.key in Elems(KeyList(b.fields));
    }
  }

  lemma AgreeingObjects(a: Json, b: Json)
    requires a.Obj? && b.Obj? && forall seg :: Agree(a, b, seg)
    ensures Same(a, b)
  {
    forall k
      ensures k in KeyList(a.fields) <==> k in KeyList(b.fields)
      ensures k in KeyList(a.fields) ==>
        var x, y := Child(a, Key(k)), Child(b, Key(k)); x.Some? && y.Some? && Same(x.value, y.value)
    {
      HasKey(a.fields, k);
      HasKey(b.fields, k);
      assert Agree(a, b, Key(k));
    }
    assert Elems(KeyList(a.fields)) == Elems(KeyList(b.fields));
  }

  // ----- the diff the other way round is the same list, swapped

  function Swap(c: Change): Change {
    Change(c.path, match c.kind case Added => Removed case Removed => Added case Modified => Modified, c.after,
        c.before, c.sensitive)
  }

  function SwapAll(changes: seq<Change>): (swapped: seq<Change>)
    ensures |swapped| == |changes| && forall i | 0 <= i < |changes| :: swapped[i] == Swap(changes[i])
  {
    seq(|changes|, i requires 0 <= i < |changes| => Swap(changes[i]))
  }

  lemma SwapChange(path: Path, before: Option<Held>, after: Option<Held>, m: Masks)
    requires before.Some? || after.Some?
    ensures FieldChange(path, after, before, m) == Swap(FieldChange(path, before, after, m))
  {
  }

  lemma SegmentsSwap(a: Json, b: Json)
    ensures Segments(a, b) == Segments(b, a)
  {
    if a.Obj? && b.Obj? {
      var ka, kb := KeyList(a.fields), KeyList(b.fields);
      assert Elems(ka + kb) == Elems(kb + ka);
      SortSame(ka + kb, kb + ka);
    }
  }

  lemma StartSwaps(all: seq<Change>)
    ensures Start(SwapAll(all)) == SwapAll(Start(all))
  {
  }

  lemma {:induction false} DiffSwaps(a: Held, b: Held, path: Path, depth: nat, m: Masks)
    ensures Diff(b, a, path, depth, m) == SwapAll(Diff(a, b, path, depth, m))
    decreases MAX_DEPTH - depth, 2
  {
    if !EqualHeld(a, b) {
      if Open(a, b, depth) {
        SegmentsSwap(Flat(a), Flat(b));
        CollectSwaps(a, b, Segments(Flat(a), Flat(b)), path, depth, m, []);
        assert SwapAll([]) == [];
        StartSwaps(Collect(a, b, Segments(Flat(a), Flat(b)), path, depth, m, []));
      } else {
        SwapChange(path, Some(a), Some(b), m);
      }
    }
  }

  lemma {:induction false} CollectSwaps(a: Held, b: Held, segs: seq<Segment>, path: Path, depth: nat, m: Masks,
      found: seq<Change>)
    requires depth < MAX_DEPTH
    ensures Collect(b, a, segs, path, depth, m, SwapAll(found)) == SwapAll(Collect(a, b, segs, path, depth, m, found))
    decreases MAX_DEPTH - depth, 1, |segs|
  {
    if segs != [] && |found| < MAX_CHANGES {
      ChildSwaps(a, b, segs[0], path, depth, m);
      var more := DiffChild(a, b, segs[0], path, depth, m);
      SwapJoin(found, more);
      CollectSwaps(a, b, segs[1..], path, depth, m, found + more);
    }
  }

  lemma SwapJoin(a: seq<Change>, b: seq<Change>)
    ensures SwapAll(a + b) == SwapAll(a) + SwapAll(b)
  {
  }

  lemma {:induction false} ChildSwaps(a: Held, b: Held, seg: Segment, path: Path, depth: nat, m: Masks)
    requires depth < MAX_DEPTH
    ensures DiffChild(b, a, seg, path, depth, m) == SwapAll(DiffChild(a, b, seg, path, depth, m))
    decreases MAX_DEPTH - depth, 0
  {
    var x, y := Member(a, seg, m), Member(b, seg, m);
    if x.Some? && y.Some? {
      DiffSwaps(x.value, y.value, path + [seg], depth + 1, m);
    } else if x.Some? || y.Some? {
      SwapChange(path + [seg], x, y, m);
    }
  }

  // ----- exactly when the diff is empty

  lemma {:induction false} CollectGrows(a: Held, b: Held, segs: seq<Segment>, path: Path, depth: nat, m: Masks,
      found: seq<Change>)
    requires depth < MAX_DEPTH
    ensures |found| <= |Collect(a, b, segs, path, depth, m, found)|
    decreases |segs|
  {
    if segs != [] && |found| < MAX_CHANGES {
      CollectGrows(a, b, segs[1..], path, depth, m, found + DiffChild(a, b, segs[0], path, depth, m));
    }
  }

  /** Nothing is collected exactly when no key has a change. */
  lemma {:induction false} CollectEmpty(a: Held, b: Held, segs: seq<Segment>, path: Path, depth: nat, m: Masks)
    requires depth < MAX_DEPTH
    ensures Collect(a, b, segs, path, depth, m, []) == [] <==>
      forall seg | seg in segs :: DiffChild(a, b, seg, path, depth, m) == []
    decreases |segs|
  {
    if segs != [] {
      var more := DiffChild(a, b, segs[0], path, depth, m);
      assert [] + more == more && segs[0] in segs;
      CollectGrows(a, b, segs[1..], path, depth, m, more);
      CollectEmpty(a, b, segs[1..], path, depth, m);
    }
  }

  /** Looks to the diff like the object from which all objects inherit, whose own `__proto__` is null. */
  ghost predicate RootLike(v: Json, depth: nat) {
    v.Obj? && forall seg | Child(v, seg).Some? :: depth < MAX_DEPTH && seg == Key(PROTO) && Child(v, seg).value == Null
  }

  /** One child, or its absence, on each side. */
  ghost predicate AlikeChild(a: Json, b: Json, seg: Segment, depth: nat)
    decreases a, 0
  {
    var x, y := Child(a, seg), Child(b, seg);
    if x.Some? && y.Some? then Alike(x.value, y.value, depth + 1)
    else if x.Some? then seg == Key(PROTO) && RootLike(x.value, depth + 1)
    else if y.Some? then seg == Key(PROTO) && RootLike(y.value, depth + 1)
    else true
  }

  /**
   The same up to the order of keys and up to fields `__proto__` on one side only, met before the
   depth limit, that look like the root object.
   */
  ghost predicate Alike(a: Json, b: Json, depth: nat)
    decreases a, 1
  {
    Same(a, b) || (depth < MAX_DEPTH && SameKind(a, b) && forall seg :: AlikeChild(a, b, seg, depth))
  }

  lemma SameEmpty(v: Json)
    ensures Same(Obj([]), v) <==> v == Obj([])
  {
    if v.Obj? && v.fields != [] { assert KeyList(v.fields)[0] in Elems(KeyList(v.fields)); }
  }

  lemma HasChild(v: Json) returns (seg: Segment)
    requires v.Obj? && v != Obj([])
    ensures Child(v, seg).Some?
  {
    seg := Key(v.fields[0].key);
  }

  lemma NullChild(y: Json, path: Path, depth: nat, m: Masks)
    ensures Diff(Own(Null), Own(y), path, depth, m) == [] <==> y == Null
  {
    EqualIsSame(Null, y);
  }

  /** Against the root object. */
  lemma RootChild(v: Json, seg: Segment, path: Path, depth: nat, m: Masks)
    requires depth < MAX_DEPTH && Child(v, seg).Some? && v.Obj?
    ensures DiffChild(Root, Own(v), seg, path, depth, m) == [] <==> seg == Key(PROTO) && Child(v, seg).value == Null
  {
    var x := Member(Root, seg, m);
    if x.Some? && x.value == Own(Null) { NullChild(Child(v, seg).value, path + [seg], depth + 1, m); }
  }

  lemma RootEmpty(v: Json, path: Path, depth: nat, m: Masks)
    ensures Diff(Root, Own(v), path, depth, m) == [] <==> RootLike(v, depth)
  {
    EqualIsSame(Obj([]), v);
    SameEmpty(v);
    if Open(Root, Own(v), depth) {
      var segs := Segments(Obj([]), v);
      CollectEmpty(Root, Own(v), segs, path, depth, m);
      forall seg
        ensures seg in segs <==> Child(v, seg).Some?
      {
        if Child(v, seg).Some? { SegmentsCover(Obj([]), v, seg); } else { SegmentsOwn(Obj([]), v, seg); }
      }
      forall seg | Child(v, seg).Some?
        ensures DiffChild(Root, Own(v), seg, path, depth, m) == [] <==> seg == Key(PROTO) && Child(v, seg).value == Null
      {
        RootChild(v, seg, path, depth, m);
      }
    } else if v.Obj? && v != Obj([]) {
      var seg := HasChild(v);
    }
  }

  /** Only own keys and positions are listed. */
  lemma SegmentsOwn(a: Json, b: Json, seg: Segment)
    requires SameKind(a, b) && Child(a, seg).None? && Child(b, seg).None?
    ensures seg !in Segments(a, b)
  {
    if a.Obj? && seg in Segments(a, b) {
      var keys := KeyList(a.fields) + KeyList(b.fields);
      SortRises(keys);
      var i :| 0 <= i < |Segments(a, b)| && Segments(a, b)[i] == seg;
      assert seg.key in Elems(SortKeys(keys));
      HasKey(a.fields, seg.key);
      HasKey(b.fields, seg.key);
    }
  }

  lemma MethodDiffers(name: string, y: Json, path: Path, depth: nat, m: Masks)
    ensures Diff(Method(name), Own(y), path, depth, m) != []
  {
  }

  lemma {:induction false} ChildEmpty(a: Json, b: Json, seg: Segment, path: Path, depth: nat, m: Masks)
    requires depth < MAX_DEPTH && SameKind(a, b)
    ensures Child(a, seg).Some? || Child(b, seg).Some? ==>
      (DiffChild(Own(a), Own(b), seg, path, depth, m) == [] <==> AlikeChild(a, b, seg, depth))
    decreases a, 0
  {
    var x, y := Child(a, seg), Child(b, seg);
    if x.Some? && y.Some? {
      DiffEmpty(x.value, y.value, path + [seg], depth + 1, m);
    } else if y.Some? {
      OneSidedEmpty(a, b, seg, path, depth, m);
    } else if x.Some? {
      OneSidedEmpty(b, a, seg, path, depth, m);
      ChildSwaps(Own(b), Own(a), seg, path, depth, m);
    }
  }

  lemma OneSidedEmpty(a: Json, b: Json, seg: Segment, path: Path, depth: nat, m: Masks)
    requires depth < MAX_DEPTH && SameKind(a, b) && Child(a, seg).None? && Child(b, seg).Some?
    ensures DiffChild(Own(a), Own(b), seg, path, depth, m) == [] <==>
      seg == Key(PROTO) && RootLike(Child(b, seg).value, depth + 1)
  {
    var y := Child(b, seg).value;
    RootEmpty(y, path + [seg], depth + 1, m);
    if seg.Key? { MethodDiffers(seg.key, y, path + [seg], depth + 1, m); }
  }

  /** The diff is empty exactly for values that are alike. */
  lemma {:induction false} DiffEmpty(a: Json, b: Json, path: Path, depth: nat, m: Masks)
    ensures Diff(Own(a), Own(b), path, depth, m) == [] <==> Alike(a, b, depth)
    decreases a, 1
  {
    EqualIsSame(a, b);
    if Open(Own(a), Own(b), depth) {
      var segs := Segments(a, b);
      CollectEmpty(Own(a), Own(b), segs, path, depth, m);
      forall seg
        ensures seg in segs ==> (DiffChild(Own(a), Own(b), seg, path, depth, m) == [] <==> AlikeChild(a, b, seg, depth))
        ensures seg !in segs ==> AlikeChild(a, b, seg, depth)
      {
        ChildEmpty(a, b, seg, path, depth, m);
        if Child(a, seg).Some? || Child(b, seg).Some? { SegmentsCover(a, b, seg); } else { SegmentsOwn(a, b, seg); }
      }
    }
  }

  // ----- without the key `__proto__`

  ghost predicate NoProto(v: Json) {
    match v
    case Arr(items) => forall item | item in items :: NoProto(item)
    case Obj(fields) => forall f | f in fields :: f.key != PROTO && NoProto(f.value)
    case _ => true
  }

  lemma NoProtoChild(v: Json, seg: Segment)
    requires NoProto(v) && Child(v, seg).Some?
    ensures seg != Key(PROTO) && NoProto(Child(v, seg).value)
  {
    if v.Obj? { assert v.fields[Find(v.fields, seg.key)] in v.fields; }
  }

  /** Values without the key `__proto__` are alike exactly when they are the same. */
  lemma {:induction false} AlikeIsSame(a: Json, b: Json, depth: nat)
    requires NoProto(a) && NoProto(b)
    ensures Alike(a, b, depth) <==> Same(a, b)
    decreases a
  {
    if Alike(a, b, depth) && !Same(a, b) {
      forall seg
        ensures Agree(a, b, seg)
      {
        assert AlikeChild(a, b, seg, depth);
        var x, y := Child(a, seg), Child(b, seg);
        if x.Some? { NoProtoChild(a, seg); }
        if y.Some? { NoProtoChild(b, seg); }
        if x.Some? && y.Some? { AlikeIsSame(x.value, y.value, depth + 1); }
      }
      SameByChildren(a, b);
    }
  }

  /** An added field `__proto__` that looks like the root object leaves no trace. */
  lemma EmptyYetDifferent(y: Json, path: Path, m: Masks)
    requires RootLike(y, 1)
    ensures Diff(Own(Obj([])), Own(Obj([Field(PROTO, y)])), path, 0, m) == [] && !Same(Obj([]), Obj([Field(PROTO, y)]))
  {
    var b := Obj([Field(PROTO, y)]);
    SameEmpty(b);
    forall seg
      ensures AlikeChild(Obj([]), b, seg, 0)
    {
    }
    DiffEmpty(Obj([]), b, path, 0, m);
  }

  /** So does an empty object there, and one whose only field is `__proto__: null`. */
  lemma EmptyProtoIsUnseen(path: Path, m: Masks)
    ensures Diff(Own(Obj([])), Own(Obj([Field(PROTO, Obj([]))])), path, 0, m) == []
    ensures Diff(Own(Obj([])), Own(Obj([Field(PROTO, Obj([Field(PROTO, Null)]))])), path, 0, m) == []
  {
    EmptyYetDifferent(Obj([]), path, m);
    EmptyYetDifferent(Obj([Field(PROTO, Null)]), path, m);
  }
}
