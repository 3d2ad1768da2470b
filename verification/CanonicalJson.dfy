/** JSON values up to the order of object keys. */
module CanonicalJson {
  import opened Text
  import opened Digraph
  import opened SortedKeys
  import opened Json

  // ----- looking into values

  function Find(fields: seq<Field>, key: string): (i: nat)
    ensures i <= |fields| && (i < |fields| ==> fields[i].key == key) && forall j | 0 <= j < i :: fields[j].key != key
  {
    if fields == [] || fields[0].key == key then 0 else 1 + Find(fields[1..], key)
  }

  function KeyList(fields: seq<Field>): (keys: seq<string>)
    ensures |keys| == |fields| && forall i | 0 <= i < |fields| :: keys[i] == fields[i].key
  {
    seq(|fields|, i requires 0 <= i < |fields| => fields[i].key)
  }

  /** One step of a path: a key of an object or a position of an array. */
  datatype Segment = Key(key: string) | Index(index: nat)

  type Path = seq<Segment>

  function Child(v: Json, seg: Segment): (c: Option<Json>)
    ensures c.Some? ==> c.value < v
  {
    if v.Arr? && seg.Index? && seg.index < |v.items| then Some(v.items[seg.index])
    else if v.Obj? && seg.Key? && Find(v.fields, seg.key) < |v.fields|
    then Some(v.fields[Find(v.fields, seg.key)].value)
    else None
  }

  predicate SameKind(a: Json, b: Json) {
    (a.Arr? && b.Arr?) || (a.Obj? && b.Obj?)
  }

  lemma HasKey(fields: seq<Field>, key: string)
    ensures key in KeyList(fields) <==> Find(fields, key) < |fields|
  {
    var i := Find(fields, key);
    assert i == |fields| || KeyList(fields)[i] == key;
    if key in KeyList(fields) {
      var j :| 0 <= j < |fields| && KeyList(fields)[j] == key;
      assert fields[j].key == key;
    }
  }

  // ----- equality

  /** Object keys sorted, at every level. */
  function Canonical(v: Json): Json
    decreases v
  {
    match v
    case Arr(items) => Arr(CanonicalItems(items))
    case Obj(fields) => Obj(CanonicalFields(fields, SortKeys(KeyList(fields))))
    case _ => v
  }

  function CanonicalItems(items: seq<Json>): seq<Json>
    decreases items
  {
    if items == [] then [] else [Canonical(items[0])] + CanonicalItems(items[1..])
  }

  function CanonicalFields(fields: seq<Field>, keys: seq<string>): seq<Field>
    decreases fields, |keys|
  {
    if keys == [] then [] else
    var i := Find(fields, keys[0]);
    (if i < |fields| then [Field(keys[0], Canonical(fields[i].value))] else []) + CanonicalFields(fields, keys[1..])
  }

  /** The two serialized canonical forms are the same text. */
  predicate Equal(a: Json, b: Json) {
    Canonical(a) == Canonical(b)
  }

  /** Equality that forgets the order of keys, said without sorting. */
  predicate Same(a: Json, b: Json)
    decreases a
  {
    match a
    case Arr(items) => b.Arr? && |items| == |b.items| && forall i | 0 <= i < |items| :: Same(items[i], b.items[i])
    case Obj(fields) =>
      && b.Obj? && Elems(KeyList(fields)) == Elems(KeyList(b.fields))
      && forall k | k in KeyList(fields) ::
           var x, y := Child(a, Key(k)), Child(b, Key(k)); x.Some? && y.Some? && Same(x.value, y.value)
    case _ => a == b
  }

  lemma {:induction false} CanonicalItemAt(items: seq<Json>, i: nat)
    requires i < |items|
    ensures |CanonicalItems(items)| == |items| && CanonicalItems(items)[i] == Canonical(items[i])
  {
    if |items| > 1 { CanonicalItemAt(items[1..], if i > 0 then i - 1 else 0); }
  }

  lemma {:induction false} CanonicalFieldAt(v: Json, keys: seq<string>, i: nat)
    requires v.Obj? && (forall k | k in keys :: k in KeyList(v.fields)) && i < |keys|
    ensures |CanonicalFields(v.fields, keys)| == |keys| && Child(v, Key(keys[i])).Some?
    ensures CanonicalFields(v.fields, keys)[i] == Field(keys[i], Canonical(Child(v, Key(keys[i])).value))
  {
    HasKey(v.fields, keys[0]);
    HasKey(v.fields, keys[i]);
    if |keys| > 1 { CanonicalFieldAt(v, keys[1..], if i > 0 then i - 1 else 0); }
  }

  /** Equal canonical forms means the same value up to the order of keys. */
  lemma {:induction false} EqualIsSame(a: Json, b: Json)
    ensures Equal(a, b) <==> Same(a, b)
    decreases a
  {
    match a
    case Arr(items) => if b.Arr? { EqualArrays(a, b); }
    case Obj(fields) => if b.Obj? { EqualObjects(a, b); }
    case _ =>
  }

  lemma {:induction false} EqualArrays(a: Json, b: Json)
    requires a.Arr? && b.Arr?
    ensures Equal(a, b) <==> Same(a, b)
    decreases a, 0
  {
    forall i | 0 <= i < |a.items| { CanonicalItemAt(a.items, i); }
    forall i | 0 <= i < |b.items| { CanonicalItemAt(b.items, i); }
    forall i | 0 <= i < |a.items| && i < |b.items|
      ensures Equal(a.items[i], b.items[i]) <==> Same(a.items[i], b.items[i])
    {
      EqualIsSame(a.items[i], b.items[i]);
    }
    ItemsLength(a.items);
    ItemsLength(b.items);
  }

  lemma {:induction false} ItemsLength(items: seq<Json>)
    ensures |CanonicalItems(items)| == |items|
  {
    if items != [] { CanonicalItemAt(items, 0); }
  }

  lemma {:induction false} FieldsLength(v: Json, keys: seq<string>)
    requires v.Obj? && forall k | k in keys :: k in KeyList(v.fields)
    ensures |CanonicalFields(v.fields, keys)| == |keys|
  {
    if keys != [] { CanonicalFieldAt(v, keys, 0); }
  }

  /** The keys sorted are the keys. */
  lemma SortedMembers(fields: seq<Field>)
    ensures forall k :: k in SortKeys(KeyList(fields)) <==> k in KeyList(fields)
  {
    SortRises(KeyList(fields));
    forall k
      ensures k in SortKeys(KeyList(fields)) <==> k in KeyList(fields)
    {
      assert k in Elems(SortKeys(KeyList(fields))) <==> k in Elems(KeyList(fields));
    }
  }

  lemma {:induction false} EqualObjects(a: Json, b: Json)
    requires a.Obj? && b.Obj?
    ensures Equal(a, b) <==> Same(a, b)
    decreases a, 0
  {
    var ka, kb := SortKeys(KeyList(a.fields)), SortKeys(KeyList(b.fields));
    SortedMembers(a.fields);
    SortedMembers(b.fields);
    forall k | Child(a, Key(k)).Some? && Child(b, Key(k)).Some?
      ensures Equal(Child(a, Key(k)).value, Child(b, Key(k)).value) <==>
        Same(Child(a, Key(k)).value, Child(b, Key(k)).value)
    {
      EqualIsSame(Child(a, Key(k)).value, Child(b, Key(k)).value);
    }
    if Equal(a, b) {
      KeysMatch(a, b, ka, kb);
      assert forall k :: k in KeyList(a.fields) <==> k in ka;
      assert forall k :: k in KeyList(b.fields) <==> k in kb;
      assert Elems(KeyList(a.fields)) == Elems(KeyList(b.fields));
    }
    if Same(a, b) {
      SortSame(KeyList(a.fields), KeyList(b.fields));
      FieldsMatch(a, b, ka);
    }
  }

  lemma {:induction false} FieldsMatch(a: Json, b: Json, keys: seq<string>)
    requires a.Obj? && b.Obj?
    requires forall k | k in keys :: var x, y := Child(a, Key(k)), Child(b, Key(k));
      x.Some? && y.Some? && Equal(x.value, y.value)
    ensures CanonicalFields(a.fields, keys) == CanonicalFields(b.fields, keys)
  {
    if keys != [] {
      assert keys[0] in keys && Child(a, Key(keys[0])).Some? && Child(b, Key(keys[0])).Some?;
      FieldsMatch(a, b, keys[1..]);
    }
  }

  lemma KeysMatch(a: Json, b: Json, ka: seq<string>, kb: seq<string>)
    requires a.Obj? && b.Obj? && CanonicalFields(a.fields, ka) == CanonicalFields(b.fields, kb)
    requires forall k | k in ka :: k in KeyList(a.fields)
    requires forall k | k in kb :: k in KeyList(b.fields)
    ensures ka == kb
    ensures forall k | k in ka :: var x, y := Child(a, Key(k)), Child(b, Key(k));
      x.Some? && y.Some? && Equal(x.value, y.value)
  {
    FieldsLength(a, ka);
    FieldsLength(b, kb);
    forall i | 0 <= i < |ka|
      ensures ka[i] == kb[i]
      ensures var x, y := Child(a, Key(ka[i])), Child(b, Key(ka[i])); x.Some? && y.Some? && Equal(x.value, y.value)
    {
      CanonicalFieldAt(a, ka, i);
      CanonicalFieldAt(b, kb, i);
    }
  }
}
