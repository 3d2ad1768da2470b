/** Trimming and redaction of internal event data, and its size in UTF-8. */
module EventSanitizer {
  import opened Text
  import opened Json

  const DATA_BYTES := 32_768
  const MAX_DEPTH := 8
  const MAX_KEYS := 500
  const MAX_ARRAY := 100
  const MAX_STRING := 8_192

  const SENSITIVE := ["authorization", "cookie", "token", "password", "secret", "credential", "apikey",
      "encryptedvalue", "headers", "contextjson"]

  function Lower(c: char): char {
    if 'A' <= c <= 'Z' then ((c as int - 'A' as int) + 'a' as int) as char else c
  }

  /** Letters and digits only, in lower case. */
  function Normalize(key: string): string {
    if key == "" then ""
    else (if 'a' <= Lower(key[0]) <= 'z' || '0' <= key[0] <= '9' then [Lower(key[0])] else "") + Normalize(key[1..])
  }

  predicate Includes(s: string, part: string) {
    part <= s || (s != "" && Includes(s[1..], part))
  }

  predicate Sensitive(key: string) {
    exists i | 0 <= i < |SENSITIVE| :: Includes(Normalize(key), SENSITIVE[i])
  }

  const REDACTED := Str("[REDACTED]")
  const TRUNCATED := Str("[TRUNCATED]")
  const SETTER := "__proto__"

  /** The counters that one sanitization shares. */
  datatype Tally = Tally(keys: nat, omitted: bool)

  /** Which keys hide their value. */
  type Secrecy = string -> bool

  // ----- what sanitizing computes

  /**
   The fields that an object has after they were assigned to it one by one. Assigning to
   `__proto__` calls the inherited setter and adds no field.
   */
  function Assigned(fields: seq<Field>): seq<Field> {
    if fields == [] then [] else (if fields[0].key == SETTER then [] else [fields[0]]) + Assigned(fields[1..])
  }

  lemma {:induction false} AssignedJoin(a: seq<Field>, b: seq<Field>)
    ensures Assigned(a + b) == Assigned(a) + Assigned(b)
  {
    if a == [] {
      assert a + b == b;
    } else {
      assert (a + b)[1..] == a[1..] + b;
      AssignedJoin(a[1..], b);
    }
  }

  lemma {:induction false} AssignedMembers(fields: seq<Field>, f: Field)
    ensures f in Assigned(fields) <==> f in fields && f.key != SETTER
  {
    if fields != [] { AssignedMembers(fields[1..], f); }
  }

  function Sanitized(secret: Secrecy, v: Json, depth: nat, t: Tally): (Json, Tally)
    decreases v
  {
    if depth > MAX_DEPTH then (TRUNCATED, t.(omitted := true)) else
    match v
    case Str(s) => if |s| > MAX_STRING then (Str(s[..MAX_STRING]), t.(omitted := true)) else (v, t)
    case Arr(items) =>
      var (out, u) := SanitizedItems(secret, items, depth + 1,
          if |items| > MAX_ARRAY then t.(omitted := true) else t, MAX_ARRAY);
      (Arr(out), u)
    case Obj(fields) =>
      var (out, u) := SanitizedFields(secret, fields, depth + 1, t);
      (Obj(Assigned(out)), u)
    case _ => (v, t)
  }

  function SanitizedItems(secret: Secrecy, items: seq<Json>, depth: nat, t: Tally, n: nat): (seq<Json>, Tally)
    decreases items
  {
    if items == [] || n == 0 then ([], t) else
    var (first, u) := Sanitized(secret, items[0], depth, t);
    var (rest, w) := SanitizedItems(secret, items[1..], depth, u, n - 1);
    ([first] + rest, w)
  }

  function SanitizedFields(secret: Secrecy, fields: seq<Field>, depth: nat, t: Tally): (seq<Field>, Tally)
    decreases fields
  {
    if fields == [] then ([], t)
    else if t.keys + 1 > MAX_KEYS then ([], Tally(t.keys + 1, true))
    else
      var (first, u) := SanitizedField(secret, fields[0], depth, t.(keys := t.keys + 1));
      var (rest, w) := SanitizedFields(secret, fields[1..], depth, u);
      ([first] + rest, w)
  }

  function SanitizedField(secret: Secrecy, f: Field, depth: nat, t: Tally): (Field, Tally)
    decreases f
  {
    if secret(f.key) then (Field(f.key, REDACTED), t) else
    var (value, u) := Sanitized(secret, f.value, depth, t);
    (Field(f.key, value), u)
  }

  /** The counters are fields that every nested call updates. */
  class Sanitizer {
    const secret: Secrecy
    var keys: nat
    var omitted: bool

    constructor (secret: Secrecy)
      ensures Counters() == Tally(0, false) && this.secret == secret
    {
      this.secret := secret;
      keys, omitted := 0, false;
    }

    function Counters(): Tally
      reads this
    {
      Tally(keys, omitted)
    }

    method Sanitize(v: Json, depth: nat) returns (out: Json)
      modifies this
      ensures (out, Counters()) == Sanitized(secret, v, depth, old(Counters()))
      decreases v
    {
      if depth > MAX_DEPTH {
        omitted := true;
        return TRUNCATED;
      }
      match v {
        case Str(s) =>
          if |s| > MAX_STRING {
            omitted := true;
            return Str(s[..MAX_STRING]);
          }
          return v;
        case Arr(items) =>
          if |items| > MAX_ARRAY { omitted := true; }
          var kept := SanitizeItems(items, depth + 1);
          return Arr(kept);
        case Obj(fields) =>
          var kept := SanitizeFields(fields, depth + 1);
          return Obj(kept);
        case _ => return v;
      }
    }

    method SanitizeItems(items: seq<Json>, depth: nat) returns (kept: seq<Json>)
      modifies this
      ensures (kept, Counters()) == SanitizedItems(secret, items, depth, old(Counters()), MAX_ARRAY)
      decreases items
    {
      ghost var goal := SanitizedItems(secret, items, depth, Counters(), MAX_ARRAY);
      kept := [];
      var i := 0;
      assert items[0..] == items;
      while i < |items| && i < MAX_ARRAY
        invariant 0 <= i <= |items| && i <= MAX_ARRAY
        invariant Goes(goal, kept, SanitizedItems(secret, items[i..], depth, Counters(), MAX_ARRAY - i))
      {
        ItemsUnfold(secret, items, i, depth, Counters(), MAX_ARRAY - i);
        var item := Sanitize(items[i], depth);
        kept, i := kept + [item], i + 1;
      }
      assert kept + [] == kept;
    }

    method SanitizeFields(fields: seq<Field>, depth: nat) returns (kept: seq<Field>)
      modifies this
      ensures var r := SanitizedFields(secret, fields, depth, old(Counters()));
        kept == Assigned(r.0) && Counters() == r.1
      decreases fields
    {
      ghost var goal := SanitizedFields(secret, fields, depth, Counters());
      ghost var done: seq<Field> := [];
      kept := [];
      assert fields[0..] == fields && [] + goal.0 == goal.0;
      for i := 0 to |fields|
        invariant Goes(goal, done, SanitizedFields(secret, fields[i..], depth, Counters())) && kept == Assigned(done)
      {
        FieldsUnfold(secret, fields, i, depth, Counters());
        keys := keys + 1;
        if keys > MAX_KEYS {
          omitted := true;
          assert done + [] == done;
          return;
        }
        var field := SanitizeField(fields[i], depth);
        JoinThree(done, [field], SanitizedFields(secret, fields[i + 1..], depth, Counters()).0);
        AssignedOne(done, field);
        done := done + [field];
        if field.key != SETTER { kept := kept + [field]; }
      }
      assert done + [] == done;
    }

    method SanitizeField(f: Field, depth: nat) returns (out: Field)
      modifies this
      ensures (out, Counters()) == SanitizedField(secret, f, depth, old(Counters()))
      decreases f
    {
      if secret(f.key) { return Field(f.key, REDACTED); }
      var value := Sanitize(f.value, depth);
      out := Field(f.key, value);
    }
  }

  /** The goal is what is done and what the rest gives. */
  ghost predicate Goes<T>(goal: (seq<T>, Tally), done: seq<T>, rest: (seq<T>, Tally)) {
    goal.0 == done + rest.0 && goal.1 == rest.1
  }

  lemma ItemsUnfold(secret: Secrecy, items: seq<Json>, i: nat, depth: nat, t: Tally, n: nat)
    requires i < |items| && n > 0
    ensures var first := Sanitized(secret, items[i], depth, t);
      && SanitizedItems(secret, items[i..], depth, t, n).0 ==
          [first.0] + SanitizedItems(secret, items[i + 1..], depth, first.1, n - 1).0
      && SanitizedItems(secret, items[i..], depth, t, n).1 ==
          SanitizedItems(secret, items[i + 1..], depth, first.1, n - 1).1
  {
    assert items[i..][1..] == items[i + 1..];
  }

  lemma AssignedOne(done: seq<Field>, f: Field)
    ensures Assigned(done + [f]) == if f.key == SETTER then Assigned(done) else Assigned(done) + [f]
  {
    AssignedJoin(done, [f]);
  }

  lemma FieldsUnfold(secret: Secrecy, fields: seq<Field>, i: nat, depth: nat, t: Tally)
    requires i < |fields|
    ensures t.keys + 1 > MAX_KEYS ==> SanitizedFields(secret, fields[i..], depth, t) == ([], Tally(t.keys + 1, true))
    ensures t.keys + 1 <= MAX_KEYS ==>
      var first := SanitizedField(secret, fields[i], depth, t.(keys := t.keys + 1));
      && SanitizedFields(secret, fields[i..], depth, t).0 ==
          [first.0] + SanitizedFields(secret, fields[i + 1..], depth, first.1).0
      && SanitizedFields(secret, fields[i..], depth, t).1 == SanitizedFields(secret, fields[i + 1..], depth, first.1).1
  {
    assert fields[i..][1..] == fields[i + 1..];
  }

  // ----- nothing omitted means nothing lost but the sensitive values

  function Redact(secret: Secrecy, v: Json): Json
    decreases v
  {
    match v
    case Arr(items) => Arr(RedactItems(secret, items))
    case Obj(fields) => Obj(RedactFields(secret, fields))
    case _ => v
  }

  function RedactItems(secret: Secrecy, items: seq<Json>): seq<Json>
    decreases items
  {
    if items == [] then [] else [Redact(secret, items[0])] + RedactItems(secret, items[1..])
  }

  function RedactFields(secret: Secrecy, fields: seq<Field>): seq<Field>
    decreases fields
  {
    if fields == [] then [] else
    [Field(fields[0].key, if secret(fields[0].key) then REDACTED else Redact(secret, fields[0].value))] +
        RedactFields(secret, fields[1..])
  }

  /** The redacted value without the fields that assignment loses. */
  function Kept(secret: Secrecy, v: Json): Json
    decreases v
  {
    match v
    case Arr(items) => Arr(KeptItems(secret, items))
    case Obj(fields) => Obj(Assigned(KeptFields(secret, fields)))
    case _ => v
  }

  function KeptItems(secret: Secrecy, items: seq<Json>): seq<Json>
    decreases items
  {
    if items == [] then [] else [Kept(secret, items[0])] + KeptItems(secret, items[1..])
  }

  function KeptFields(secret: Secrecy, fields: seq<Field>): seq<Field>
    decreases fields
  {
    if fields == [] then [] else
    [Field(fields[0].key, if secret(fields[0].key) then REDACTED else Kept(secret, fields[0].value))] +
        KeptFields(secret, fields[1..])
  }

  /** Once set, `omitted` stays set; so if it is not set at the end, every step kept all that an assignment keeps. */
  lemma {:induction false} NothingOmitted(secret: Secrecy, v: Json, depth: nat, t: Tally)
    ensures !Sanitized(secret, v, depth, t).1.omitted ==>
      !t.omitted && Sanitized(secret, v, depth, t).0 == Kept(secret, v)
    decreases v
  {
    match v
    case Arr(items) => NothingOmittedItems(secret, items, depth + 1,
        if |items| > MAX_ARRAY then t.(omitted := true) else t, MAX_ARRAY);
    case Obj(fields) => NothingOmittedFields(secret, fields, depth + 1, t);
    case _ =>
  }

  lemma {:induction false} NothingOmittedItems(secret: Secrecy, items: seq<Json>, depth: nat, t: Tally, n: nat)
    ensures !SanitizedItems(secret, items, depth, t, n).1.omitted ==>
      !t.omitted && (|items| <= n ==> SanitizedItems(secret, items, depth, t, n).0 == KeptItems(secret, items))
    decreases items
  {
    if items != [] && n > 0 {
      NothingOmitted(secret, items[0], depth, t);
      NothingOmittedItems(secret, items[1..], depth, Sanitized(secret, items[0], depth, t).1, n - 1);
    }
  }

  lemma {:induction false} NothingOmittedFields(secret: Secrecy, fields: seq<Field>, depth: nat, t: Tally)
    ensures !SanitizedFields(secret, fields, depth, t).1.omitted ==>
      !t.omitted && SanitizedFields(secret, fields, depth, t).0 == KeptFields(secret, fields)
    decreases fields
  {
    if fields != [] && t.keys + 1 <= MAX_KEYS {
      var counted := t.(keys := t.keys + 1);
      if secret(fields[0].key) {
        NothingOmittedFields(secret, fields[1..], depth, counted);
      } else {
        NothingOmitted(secret, fields[0].value, depth, counted);
        NothingOmittedFields(secret, fields[1..], depth, Sanitized(secret, fields[0].value, depth, counted).1);
      }
    }
  }

  /** No object outside a sensitive value has the key `__proto__`. */
  predicate NoSetter(secret: Secrecy, v: Json) {
    match v
    case Arr(items) => forall item | item in items :: NoSetter(secret, item)
    case Obj(fields) => forall f | f in fields :: f.key != SETTER && (secret(f.key) || NoSetter(secret, f.value))
    case _ => true
  }

  /** What is kept is the redacted value exactly when no such key stands outside a sensitive value. */
  lemma {:induction false} KeptIsRedacted(secret: Secrecy, v: Json)
    ensures Kept(secret, v) == Redact(secret, v) <==> NoSetter(secret, v)
    decreases v
  {
    match v
    case Arr(items) => KeptItemsAreRedacted(secret, items);
    case Obj(fields) =>
      KeptFieldsAreRedacted(secret, fields);
      KeptObject(secret, fields);
    case _ =>
  }

  lemma {:induction false} KeptItemsAreRedacted(secret: Secrecy, items: seq<Json>)
    ensures KeptItems(secret, items) == RedactItems(secret, items) <==>
      forall item | item in items :: NoSetter(secret, item)
    decreases items
  {
    if items != [] {
      KeptIsRedacted(secret, items[0]);
      KeptItemsAreRedacted(secret, items[1..]);
      SameHead(Kept(secret, items[0]), KeptItems(secret, items[1..]), Redact(secret, items[0]),
          RedactItems(secret, items[1..]));
      assert items == [items[0]] + items[1..];
    }
  }

  lemma {:induction false} AssignedAll(fields: seq<Field>)
    ensures |Assigned(fields)| <= |fields|
    ensures |Assigned(fields)| == |fields| <==> Assigned(fields) == fields
    ensures Assigned(fields) == fields <==> forall f | f in fields :: f.key != SETTER
  {
    if fields != [] {
      AssignedAll(fields[1..]);
      assert fields == [fields[0]] + fields[1..];
      SameHead(fields[0], Assigned(fields[1..]), fields[0], fields[1..]);
    }
  }

  lemma {:induction false} FieldKeys(secret: Secrecy, fields: seq<Field>)
    ensures |KeptFields(secret, fields)| == |fields| == |RedactFields(secret, fields)|
    ensures forall i | 0 <= i < |fields| :: KeptFields(secret, fields)[i].key == fields[i].key
  {
    if fields != [] { FieldKeys(secret, fields[1..]); }
  }

  lemma {:induction false} KeptFieldsAreRedacted(secret: Secrecy, fields: seq<Field>)
    ensures KeptFields(secret, fields) == RedactFields(secret, fields) <==>
      forall f | f in fields :: secret(f.key) || NoSetter(secret, f.value)
    decreases fields
  {
    if fields != [] {
      var f := fields[0];
      KeptIsRedacted(secret, f.value);
      KeptFieldsAreRedacted(secret, fields[1..]);
      assert fields == [f] + fields[1..];
      SameHead(Field(f.key, if secret(f.key) then REDACTED else Kept(secret, f.value)), KeptFields(secret, fields[1..]),
               Field(f.key, if secret(f.key) then REDACTED else Redact(secret, f.value)),
                   RedactFields(secret, fields[1..]));
    }
  }

  lemma KeysStay(secret: Secrecy, fields: seq<Field>)
    ensures Assigned(KeptFields(secret, fields)) == KeptFields(secret, fields) <==>
      forall f | f in fields :: f.key != SETTER
  {
    FieldKeys(secret, fields);
    AssignedAll(KeptFields(secret, fields));
    var kept := KeptFields(secret, fields);
    if forall f | f in kept :: f.key != SETTER {
      forall f | f in fields
        ensures f.key != SETTER
      {
        var i :| 0 <= i < |fields| && fields[i] == f;
        assert kept[i] in kept;
      }
    }
  }

  lemma KeptObject(secret: Secrecy, fields: seq<Field>)
    requires KeptFields(secret, fields) == RedactFields(secret, fields) <==>
      forall f | f in fields :: secret(f.key) || NoSetter(secret, f.value)
    ensures Kept(secret, Obj(fields)) == Redact(secret, Obj(fields)) <==> NoSetter(secret, Obj(fields))
  {
    FieldKeys(secret, fields);
    AssignedAll(KeptFields(secret, fields));
    KeysStay(secret, fields);
  }

  // ----- the bounds hold for every input

  function Cap(keys: nat): nat {
    if keys < MAX_KEYS then keys else MAX_KEYS
  }

  /** Every key of the output was counted, up to the cap. */
  lemma {:induction false} KeysAreCounted(secret: Secrecy, v: Json, depth: nat, t: Tally)
    ensures KeyCount(Sanitized(secret, v, depth, t).0) + Cap(t.keys) <= Cap(Sanitized(secret, v, depth, t).1.keys)
    decreases v
  {
    match v
    case Arr(items) => ItemKeysAreCounted(secret, items, depth + 1,
        if |items| > MAX_ARRAY then t.(omitted := true) else t, MAX_ARRAY);
    case Obj(fields) =>
      FieldKeysAreCounted(secret, fields, depth + 1, t);
      AssignedKeys(SanitizedFields(secret, fields, depth + 1, t).0);
    case _ =>
  }

  lemma {:induction false} AssignedKeys(fields: seq<Field>)
    ensures FieldKeyCount(Assigned(fields)) <= FieldKeyCount(fields)
  {
    if fields != [] {
      AssignedKeys(fields[1..]);
      assert ([fields[0]] + Assigned(fields[1..]))[1..] == Assigned(fields[1..]) &&
        [] + Assigned(fields[1..]) == Assigned(fields[1..]);
    }
  }

  lemma {:induction false} ItemKeysAreCounted(secret: Secrecy, items: seq<Json>, depth: nat, t: Tally, n: nat)
    ensures ItemKeyCount(SanitizedItems(secret, items, depth, t, n).0) + Cap(t.keys) <=
      Cap(SanitizedItems(secret, items, depth, t, n).1.keys)
    decreases items
  {
    if items != [] && n > 0 {
      KeysAreCounted(secret, items[0], depth, t);
      var (first, u) := Sanitized(secret, items[0], depth, t);
      ItemKeysAreCounted(secret, items[1..], depth, u, n - 1);
      assert ([first] + SanitizedItems(secret, items[1..], depth, u, n - 1).0)[1..] ==
        SanitizedItems(secret, items[1..], depth, u, n - 1).0;
    }
  }

  lemma {:induction false} FieldKeysAreCounted(secret: Secrecy, fields: seq<Field>, depth: nat, t: Tally)
    ensures FieldKeyCount(SanitizedFields(secret, fields, depth, t).0) + Cap(t.keys) <=
      Cap(SanitizedFields(secret, fields, depth, t).1.keys)
    decreases fields
  {
    if fields != [] && t.keys + 1 <= MAX_KEYS {
      var counted := t.(keys := t.keys + 1);
      var (first, u) := SanitizedField(secret, fields[0], depth, counted);
      if !secret(fields[0].key) { KeysAreCounted(secret, fields[0].value, depth, counted); }
      FieldKeysAreCounted(secret, fields[1..], depth, u);
      var rest := SanitizedFields(secret, fields[1..], depth, u).0;
      assert ([first] + rest)[1..] == rest;
    }
  }

  /** No string or array is too long, and nothing but the truncation mark lies below the greatest depth. */
  predicate Bounded(v: Json, depth: nat)
    decreases v
  {
    if depth > MAX_DEPTH then v == TRUNCATED || v == REDACTED else
    match v
    case Str(s) => |s| <= MAX_STRING
    case Arr(items) => |items| <= MAX_ARRAY && forall x | x in items :: Bounded(x, depth + 1)
    case Obj(fields) => forall f | f in fields :: Bounded(f.value, depth + 1)
    case _ => true
  }

  lemma {:induction false} OutputIsBounded(secret: Secrecy, v: Json, depth: nat, t: Tally)
    ensures Bounded(Sanitized(secret, v, depth, t).0, depth)
    decreases v
  {
    match v
    case Arr(items) => ItemsAreBounded(secret, items, depth + 1,
        if |items| > MAX_ARRAY then t.(omitted := true) else t, MAX_ARRAY);
    case Obj(fields) =>
      FieldsAreBounded(secret, fields, depth + 1, t);
      var out := SanitizedFields(secret, fields, depth + 1, t).0;
      forall f | f in Assigned(out)
        ensures Bounded(f.value, depth + 1)
      {
        AssignedMembers(out, f);
      }
    case _ =>
  }

  lemma {:induction false} ItemsAreBounded(secret: Secrecy, items: seq<Json>, depth: nat, t: Tally, n: nat)
    ensures var out := SanitizedItems(secret, items, depth, t, n).0;
      |out| <= n && forall x | x in out :: Bounded(x, depth)
    decreases items
  {
    if items != [] && n > 0 {
      OutputIsBounded(secret, items[0], depth, t);
      ItemsAreBounded(secret, items[1..], depth, Sanitized(secret, items[0], depth, t).1, n - 1);
    }
  }

  lemma {:induction false} FieldsAreBounded(secret: Secrecy, fields: seq<Field>, depth: nat, t: Tally)
    ensures var out := SanitizedFields(secret, fields, depth, t).0; forall f | f in out :: Bounded(f.value, depth)
    decreases fields
  {
    if fields != [] && t.keys + 1 <= MAX_KEYS {
      var counted := t.(keys := t.keys + 1);
      var (first, u) := SanitizedField(secret, fields[0], depth, counted);
      assert |REDACTED.s| == 10;
      if !secret(fields[0].key) { OutputIsBounded(secret, fields[0].value, depth, counted); }
      FieldsAreBounded(secret, fields[1..], depth, u);
      assert Bounded(first.value, depth);
      assert SanitizedFields(secret, fields, depth, t).0 == [first] + SanitizedFields(secret, fields[1..], depth, u).0;
    }
  }

  // ----- the size in bytes

  type Unit = u: int | 0 <= u < 0x1_0000

  /** The loop of `jsonBytes`, as a count. */
  function ByteCount(text: seq<Unit>): nat
    decreases |text|
  {
    if text == [] then 0
    else if text[0] < 0x80 then 1 + ByteCount(text[1..])
    else if text[0] < 0x800 then 2 + ByteCount(text[1..])
    else if 0xd800 <= text[0] <= 0xdbff then 4 + ByteCount(if |text| > 1 then text[2..] else [])
    else 3 + ByteCount(text[1..])
  }

  method JsonBytes(text: seq<Unit>) returns (bytes: nat)
    ensures bytes == ByteCount(text)
    ensures Decode(text).Some? ==> bytes == |Utf8(Decode(text).value)|
  {
    bytes := 0;
    var index := 0;
    while index < |text|
      invariant 0 <= index <= |text| + 1
      invariant bytes + ByteCount(if index <= |text| then text[index..] else []) == ByteCount(text)
    {
      var code := text[index];
      assert text[index..][1..] == text[index + 1..];
      assert index + 2 <= |text| ==> text[index..][2..] == text[index + 2..];
      if code < 0x80 {
        bytes := bytes + 1;
      } else if code < 0x800 {
        bytes := bytes + 2;
      } else if 0xd800 <= code <= 0xdbff {
        bytes := bytes + 4;
        index := index + 1;
      } else {
        bytes := bytes + 3;
      }
      index := index + 1;
    }
    CountIsUtf8Length(text);
  }

  /** The code point of a surrogate pair. */
  function Pair(high: int, low: int): nat
    requires 0xd800 <= high <= 0xdbff && 0xdc00 <= low <= 0xdfff
  {
    0x1_0000 + (high - 0xd800) * 0x400 + (low - 0xdc00)
  }

  /** The code points of UTF-16 text; none when a surrogate stands alone. */
  function Decode(text: seq<Unit>): Option<seq<nat>> {
    if text == [] then Some([])
    else if 0xd800 <= text[0] <= 0xdbff then
      if |text| == 1 || !(0xdc00 <= text[1] <= 0xdfff) then None else
      var rest := Decode(text[2..]);
      if rest.None? then None
      else Some([Pair(text[0], text[1])] + rest.value)
    else if 0xdc00 <= text[0] <= 0xdfff then None
    else
      var rest := Decode(text[1..]);
      if rest.None? then None else Some([text[0]] + rest.value)
  }

  /** The bytes of a code point (section 3 of RFC 3629). */
  function Utf8Of(c: nat): seq<nat> {
    if c <= 0x7f then [c]
    else if c <= 0x7ff then [0xc0 + c / 0x40, 0x80 + c % 0x40]
    else if c <= 0xffff then [0xe0 + c / 0x1000, 0x80 + c / 0x40 % 0x40, 0x80 + c % 0x40]
    else [0xf0 + c / 0x4_0000, 0x80 + c / 0x1000 % 0x40, 0x80 + c / 0x40 % 0x40, 0x80 + c % 0x40]
  }

  function Utf8(points: seq<nat>): seq<nat> {
    if points == [] then [] else Utf8Of(points[0]) + Utf8(points[1..])
  }

  lemma {:induction false} CountIsUtf8Length(text: seq<Unit>)
    ensures Decode(text).Some? ==> ByteCount(text) == |Utf8(Decode(text).value)|
  {
    if text != [] {
      if 0xd800 <= text[0] <= 0xdbff {
        if |text| > 1 { CountIsUtf8Length(text[2..]); }
      } else {
        CountIsUtf8Length(text[1..]);
      }
      if Decode(text).Some? {
        var points := Decode(text).value;
        assert points[1..] == Decode(if 0xd800 <= text[0] <= 0xdbff then text[2..] else text[1..]).value;
      }
    }
  }

  // ----- the whole operation

  function AsRecord(v: Json): Json {
    if v.Obj? then v else Obj([])
  }

  /** `stringify` stands for `JSON.stringify`. */
  method SanitizeEventData(v: Json, stringify: Json -> seq<Unit>)
    returns (data: Json, omitted: bool, originalBytes: nat)
    ensures data.Obj? && originalBytes == ByteCount(stringify(v))
    ensures var (out, tally) := Sanitized(Sensitive, v, 0, Tally(0, false));
      var large := ByteCount(stringify(AsRecord(out))) > DATA_BYTES;
      data == (if large then OmittedMark(originalBytes) else AsRecord(out)) && omitted == (tally.omitted || large)
    ensures !omitted ==> (data == Redact(Sensitive, v) <==> v.Obj? && NoSetter(Sensitive, v))
    ensures KeyCount(data) <= MAX_KEYS
    ensures ByteCount(stringify(data)) <= DATA_BYTES || (omitted && data == OmittedMark(originalBytes))
    ensures !omitted ==> ByteCount(stringify(data)) <= DATA_BYTES
  {
    originalBytes := JsonBytes(stringify(v));
    var state := new Sanitizer(Sensitive);
    var out := state.Sanitize(v, 0);
    NothingOmitted(Sensitive, v, 0, Tally(0, false));
    KeptIsRedacted(Sensitive, v);
    KeysAreCounted(Sensitive, v, 0, Tally(0, false));
    data, omitted := AsRecord(out), state.omitted;
    var size := JsonBytes(stringify(data));
    if size > DATA_BYTES {
      data, omitted := OmittedMark(originalBytes), true;
      MarkIsSmall(originalBytes);
    }
  }

  lemma MarkIsSmall(bytes: nat)
    ensures KeyCount(OmittedMark(bytes)) == 2
  {
    var fields := OmittedMark(bytes).fields;
    assert fields[1..][1..] == [];
    assert FieldKeyCount(fields[1..]) == 1 + KeyCount(fields[1].value) + FieldKeyCount([]);
    assert FieldKeyCount(fields) == 1 + KeyCount(fields[0].value) + FieldKeyCount(fields[1..]);
  }

  function OmittedMark(bytes: nat): Json {
    Obj([Field("valueOmitted", Bool(true)), Field("valueSizeBytes", Num(bytes as real))])
  }

  /** A value that is not an object is dropped without being reported. */
  lemma NonObjectIsDropped(secret: Secrecy, s: string)
    requires |s| <= MAX_STRING
    ensures AsRecord(Sanitized(secret, Str(s), 0, Tally(0, false)).0) == Obj([]) &&
      !Sanitized(secret, Str(s), 0, Tally(0, false)).1.omitted
  {
  }

  lemma OneNumber(secret: Secrecy, key: string, n: real) returns (w: Json)
    ensures SanitizedFields(secret, [Field(key, Num(n))], 1, Tally(0, false)) == ([Field(key, w)], Tally(1, false))
  {
    var fields := [Field(key, Num(n))];
    w := SanitizedField(secret, fields[0], 1, Tally(1, false)).0.value;
    assert fields[0..] == fields && fields[1..] == [] && [Field(key, w)] + [] == [Field(key, w)];
    assert SanitizedField(secret, fields[0], 1, Tally(1, false)) == (Field(key, w), Tally(1, false));
    FieldsUnfold(secret, fields, 0, 1, Tally(0, false));
  }

  lemma DropsSetter(w: Json)
    ensures Assigned([Field(SETTER, w)]) == []
  {
    assert [Field(SETTER, w)][1..] == [];
  }

  /** A field under `__proto__` is counted, lost and not reported. */
  lemma SetterIsLost(secret: Secrecy, n: real)
    ensures Sanitized(secret, Obj([Field(SETTER, Num(n))]), 0, Tally(0, false)) == (Obj([]), Tally(1, false))
    ensures Redact(secret, Obj([Field(SETTER, Num(n))])) != Obj([])
  {
    var w := OneNumber(secret, SETTER, n);
    DropsSetter(w);
    var v := Obj([Field(SETTER, Num(n))]);
    FieldKeys(secret, v.fields);
    assert |Redact(secret, v).fields| == 1;
  }
}
