/** The limits on webhook payloads: the check that refuses a payload, and the trimming applied afterwards. */
module PayloadLimits {
  import opened Text
  import opened Json

  datatype Limits = Limits(maxBytes: nat, maxDepth: nat, maxKeys: nat, maxArrayLength: nat, maxStringLength: nat,
      requireBody: bool)

  /** `Thrown` when a string or an array is too long. */
  datatype Stats = Thrown | Stats(keys: nat, tooDeep: bool)

  function Walk(v: Json, limits: Limits, depth: nat): Stats
    decreases v
  {
    if depth > limits.maxDepth then Stats(0, true) else
    match v
    case Str(s) => if |s| > limits.maxStringLength then Thrown else Stats(0, false)
    case Arr(items) => if |items| > limits.maxArrayLength then Thrown
        else WalkItems(items, limits, depth + 1, Stats(0, false))
    case Obj(fields) => WalkFields(fields, limits, depth + 1, Stats(0, false))
    case _ => Stats(0, false)
  }

  function WalkItems(items: seq<Json>, limits: Limits, depth: nat, acc: Stats): Stats
    decreases items
  {
    if acc.Thrown? || items == [] then acc else
    var next := Walk(items[0], limits, depth);
    WalkItems(items[1..], limits, depth,
        if next.Thrown? then Thrown else Stats(acc.keys + next.keys, acc.tooDeep || next.tooDeep))
  }

  function WalkFields(fields: seq<Field>, limits: Limits, depth: nat, acc: Stats): Stats
    decreases fields
  {
    if acc.Thrown? || fields == [] then acc else
    var next := Walk(fields[0].value, limits, depth);
    WalkFields(fields[1..], limits, depth,
        if next.Thrown? then Thrown else Stats(acc.keys + 1 + next.keys, acc.tooDeep || next.tooDeep))
  }

  /** `bytes` is the size of the raw body. */
  predicate Accepts(v: Json, bytes: nat, limits: Limits) {
    && bytes <= limits.maxBytes
    && !(limits.requireBody && (v == Null || v == Obj([])))
    && var stats := Walk(v, limits, 0);
       stats.Stats? && !stats.tooDeep && stats.keys <= limits.maxKeys
  }

  const TOO_DEEP := Obj([Field("truncated", Bool(true)), Field("reason", Str("max_depth"))])

  function Start<T>(s: seq<T>, n: nat): seq<T> {
    if |s| <= n then s else s[..n]
  }

  function Sanitize(v: Json, limits: Limits, depth: nat): Json
    decreases v
  {
    if depth > limits.maxDepth then TOO_DEEP else
    match v
    case Str(s) => Str(Start(s, limits.maxStringLength))
    case Arr(items) => Arr(SanitizeItems(items, limits, depth + 1, limits.maxArrayLength))
    case Obj(fields) => Obj(SanitizeFields(fields, limits, depth + 1, limits.maxKeys))
    case _ => v
  }

  /** The first `n` items, each sanitized. */
  function SanitizeItems(items: seq<Json>, limits: Limits, depth: nat, n: nat): seq<Json>
    decreases items
  {
    if items == [] || n == 0 then []
    else [Sanitize(items[0], limits, depth)] + SanitizeItems(items[1..], limits, depth, n - 1)
  }

  function SanitizeFields(fields: seq<Field>, limits: Limits, depth: nat, n: nat): seq<Field>
    decreases fields
  {
    if fields == [] || n == 0 then []
    else
      [Field(fields[0].key, Sanitize(fields[0].value, limits, depth))] +
      SanitizeFields(fields[1..], limits, depth, n - 1)
  }

  // ----- an accepted payload is left as it is

  /** The result of a walk that goes on from `acc` is good only if `acc` is, and counts no less. */
  ghost predicate Clean(s: Stats, max: nat) {
    s.Stats? && !s.tooDeep && s.keys <= max
  }

  lemma {:induction false} CleanWalkKeeps(v: Json, limits: Limits, depth: nat)
    requires Clean(Walk(v, limits, depth), limits.maxKeys)
    ensures Sanitize(v, limits, depth) == v
    decreases v
  {
    match v
    case Arr(items) => CleanItemsKeep(items, limits, depth + 1, Stats(0, false), limits.maxArrayLength);
    case Obj(fields) => CleanFieldsKeep(fields, limits, depth + 1, Stats(0, false), limits.maxKeys);
    case _ =>
  }

  lemma {:induction false} CleanItemsKeep(items: seq<Json>, limits: Limits, depth: nat, acc: Stats, n: nat)
    requires Clean(WalkItems(items, limits, depth, acc), limits.maxKeys) && |items| <= n
    ensures Clean(acc, limits.maxKeys) && SanitizeItems(items, limits, depth, n) == items
    decreases items
  {
    if items != [] && acc.Stats? {
      var next := Walk(items[0], limits, depth);
      CleanItemsKeep(items[1..], limits, depth,
          if next.Thrown? then Thrown else Stats(acc.keys + next.keys, acc.tooDeep || next.tooDeep), n - 1);
      CleanWalkKeeps(items[0], limits, depth);
    }
  }

  lemma {:induction false} CleanFieldsKeep(fields: seq<Field>, limits: Limits, depth: nat, acc: Stats, n: nat)
    requires Clean(WalkFields(fields, limits, depth, acc), limits.maxKeys) &&
      (acc.Stats? ==> limits.maxKeys <= acc.keys + n)
    ensures Clean(acc, limits.maxKeys) && SanitizeFields(fields, limits, depth, n) == fields
    decreases fields
  {
    if fields != [] && acc.Stats? {
      var next := Walk(fields[0].value, limits, depth);
      var more := if next.Thrown? then Thrown else Stats(acc.keys + 1 + next.keys, acc.tooDeep || next.tooDeep);
      CleanFieldsFit(fields[1..], limits, depth, more);
      CleanFieldsKeep(fields[1..], limits, depth, more, n - 1);
      CleanWalkKeeps(fields[0].value, limits, depth);
    }
  }

  lemma {:induction false} CleanFieldsFit(fields: seq<Field>, limits: Limits, depth: nat, acc: Stats)
    requires Clean(WalkFields(fields, limits, depth, acc), limits.maxKeys)
    ensures Clean(acc, limits.maxKeys)
    decreases fields
  {
    if fields != [] && acc.Stats? {
      var next := Walk(fields[0].value, limits, depth);
      CleanFieldsFit(fields[1..], limits, depth,
          if next.Thrown? then Thrown else Stats(acc.keys + 1 + next.keys, acc.tooDeep || next.tooDeep));
    }
  }

  /** Whatever the check accepts, the trimming leaves unchanged. */
  lemma AcceptedIsUnchanged(v: Json, bytes: nat, limits: Limits)
    requires Accepts(v, bytes, limits)
    ensures Sanitize(v, limits, 0) == v
  {
    CleanWalkKeeps(v, limits, 0);
  }

  // ----- trimming twice is trimming once

  lemma {:induction false} SanitizeTwice(v: Json, limits: Limits, depth: nat)
    ensures Sanitize(Sanitize(v, limits, depth), limits, depth) == Sanitize(v, limits, depth)
    decreases v
  {
    match v
    case Arr(items) => SanitizeItemsTwice(items, limits, depth + 1, limits.maxArrayLength);
    case Obj(fields) => SanitizeFieldsTwice(fields, limits, depth + 1, limits.maxKeys);
    case _ =>
  }

  lemma {:induction false} SanitizeItemsTwice(items: seq<Json>, limits: Limits, depth: nat, n: nat)
    ensures SanitizeItems(SanitizeItems(items, limits, depth, n), limits, depth, n) ==
      SanitizeItems(items, limits, depth, n)
    decreases items
  {
    if items != [] && n > 0 {
      SanitizeTwice(items[0], limits, depth);
      SanitizeItemsTwice(items[1..], limits, depth, n - 1);
    }
  }

  lemma {:induction false} SanitizeFieldsTwice(fields: seq<Field>, limits: Limits, depth: nat, n: nat)
    ensures SanitizeFields(SanitizeFields(fields, limits, depth, n), limits, depth, n) ==
      SanitizeFields(fields, limits, depth, n)
    decreases fields
  {
    if fields != [] && n > 0 {
      SanitizeTwice(fields[0].value, limits, depth);
      SanitizeFieldsTwice(fields[1..], limits, depth, n - 1);
    }
  }

  // ----- what the check means

  /** No deeper than allowed, and no string or array too long. */
  predicate Fits(v: Json, limits: Limits, depth: nat) {
    && depth <= limits.maxDepth
    && match v
       case Str(s) => |s| <= limits.maxStringLength
       case Arr(items) => |items| <= limits.maxArrayLength &&
           forall item | item in items :: Fits(item, limits, depth + 1)
       case Obj(fields) => forall field | field in fields :: Fits(field.value, limits, depth + 1)
       case _ => true
  }

  predicate Refused(s: Stats) {
    s.Thrown? || s.tooDeep
  }

  lemma {:induction false} WalkMeans(v: Json, limits: Limits, depth: nat)
    ensures if Fits(v, limits, depth) then Walk(v, limits, depth) == Stats(KeyCount(v), false)
      else Refused(Walk(v, limits, depth))
    decreases v
  {
    match v
    case Arr(items) => WalkItemsMeans(items, limits, depth + 1, Stats(0, false));
    case Obj(fields) => WalkFieldsMeans(fields, limits, depth + 1, Stats(0, false));
    case _ =>
  }

  lemma {:induction false} WalkItemsMeans(items: seq<Json>, limits: Limits, depth: nat, acc: Stats)
    ensures if !Refused(acc) && forall item | item in items :: Fits(item, limits, depth)
            then WalkItems(items, limits, depth, acc) == Stats(acc.keys + ItemKeyCount(items), false)
            else Refused(WalkItems(items, limits, depth, acc))
    decreases items
  {
    if items != [] && acc.Stats? {
      var next := Walk(items[0], limits, depth);
      WalkMeans(items[0], limits, depth);
      WalkItemsMeans(items[1..], limits, depth,
          if next.Thrown? then Thrown else Stats(acc.keys + next.keys, acc.tooDeep || next.tooDeep));
      assert items == [items[0]] + items[1..];
    }
  }

  lemma {:induction false} WalkFieldsMeans(fields: seq<Field>, limits: Limits, depth: nat, acc: Stats)
    ensures if !Refused(acc) && forall field | field in fields :: Fits(field.value, limits, depth)
            then WalkFields(fields, limits, depth, acc) == Stats(acc.keys + FieldKeyCount(fields), false)
            else Refused(WalkFields(fields, limits, depth, acc))
    decreases fields
  {
    if fields != [] && acc.Stats? {
      var next := Walk(fields[0].value, limits, depth);
      WalkMeans(fields[0].value, limits, depth);
      WalkFieldsMeans(fields[1..], limits, depth,
          if next.Thrown? then Thrown else Stats(acc.keys + 1 + next.keys, acc.tooDeep || next.tooDeep));
      assert fields == [fields[0]] + fields[1..];
    }
  }

  /**
   A payload is accepted exactly when its size, depth, strings, arrays and total number of keys are within the limits.
   */
  lemma AcceptsExactly(v: Json, bytes: nat, limits: Limits)
    ensures Accepts(v, bytes, limits) <==>
      && bytes <= limits.maxBytes && (limits.requireBody ==> v != Null && v != Obj([]))
      && Fits(v, limits, 0) && KeyCount(v) <= limits.maxKeys
  {
    WalkMeans(v, limits, 0);
  }

  // ----- what trimming leaves

  /** Within the limits at every place, with the mark where the depth ends. */
  predicate Trimmed(v: Json, limits: Limits, depth: nat) {
    if depth > limits.maxDepth then v == TOO_DEEP else
    match v
    case Str(s) => |s| <= limits.maxStringLength
    case Arr(items) => |items| <= limits.maxArrayLength &&
        forall item | item in items :: Trimmed(item, limits, depth + 1)
    case Obj(fields) => |fields| <= limits.maxKeys &&
        forall field | field in fields :: Trimmed(field.value, limits, depth + 1)
    case _ => true
  }

  /**
   Trimming changes nothing exactly where there is nothing to trim; with SanitizeTwice, its result is always trimmed.
   */
  lemma {:induction false} UnchangedIsTrimmed(v: Json, limits: Limits, depth: nat)
    ensures Sanitize(v, limits, depth) == v <==> Trimmed(v, limits, depth)
    decreases v
  {
    match v
    case Arr(items) => UnchangedItems(items, limits, depth + 1, limits.maxArrayLength);
    case Obj(fields) => UnchangedFields(fields, limits, depth + 1, limits.maxKeys);
    case _ =>
  }

  lemma {:induction false} UnchangedItems(items: seq<Json>, limits: Limits, depth: nat, n: nat)
    ensures SanitizeItems(items, limits, depth, n) == items <==>
      |items| <= n && forall item | item in items :: Trimmed(item, limits, depth)
    decreases items
  {
    if items != [] && n > 0 {
      UnchangedIsTrimmed(items[0], limits, depth);
      UnchangedItems(items[1..], limits, depth, n - 1);
      assert items == [items[0]] + items[1..];
      SameHead(Sanitize(items[0], limits, depth), SanitizeItems(items[1..], limits, depth, n - 1), items[0],
          items[1..]);
    }
  }

  lemma {:induction false} UnchangedFields(fields: seq<Field>, limits: Limits, depth: nat, n: nat)
    ensures SanitizeFields(fields, limits, depth, n) == fields <==>
      |fields| <= n && forall field | field in fields :: Trimmed(field.value, limits, depth)
    decreases fields
  {
    if fields != [] && n > 0 {
      UnchangedIsTrimmed(fields[0].value, limits, depth);
      UnchangedFields(fields[1..], limits, depth, n - 1);
      assert fields == [fields[0]] + fields[1..];
      SameHead(Field(fields[0].key, Sanitize(fields[0].value, limits, depth)),
          SanitizeFields(fields[1..], limits, depth, n - 1), fields[0], fields[1..]);
    }
  }

  // ----- what trimming keeps

  /** Strings, arrays and objects keep their start, and what lies too deep becomes a mark. */
  ghost predicate Trims(v: Json, out: Json, limits: Limits, depth: nat)
    decreases v
  {
    if depth > limits.maxDepth then out == TOO_DEEP else
    match v
    case Str(s) => out.Str? && out.s <= s && |out.s| == Least(|s|, limits.maxStringLength)
    case Arr(items) =>
      && out.Arr? && |out.items| == Least(|items|, limits.maxArrayLength)
      && forall i | 0 <= i < |out.items| :: Trims(items[i], out.items[i], limits, depth + 1)
    case Obj(fields) =>
      && out.Obj? && |out.fields| == Least(|fields|, limits.maxKeys)
      && forall i | 0 <= i < |out.fields| ::
           out.fields[i].key == fields[i].key && Trims(fields[i].value, out.fields[i].value, limits, depth + 1)
    case _ => out == v
  }

  function Least(m: nat, n: nat): nat {
    if m <= n then m else n
  }

  lemma {:induction false} SanitizeTrims(v: Json, limits: Limits, depth: nat)
    ensures Trims(v, Sanitize(v, limits, depth), limits, depth)
    decreases v
  {
    match v
    case Arr(items) => ItemsTrim(items, limits, depth + 1, limits.maxArrayLength);
    case Obj(fields) => FieldsTrim(fields, limits, depth + 1, limits.maxKeys);
    case _ =>
  }

  lemma {:induction false} ItemsTrim(items: seq<Json>, limits: Limits, depth: nat, n: nat)
    ensures var out := SanitizeItems(items, limits, depth, n);
      |out| == Least(|items|, n) && forall i | 0 <= i < |out| :: Trims(items[i], out[i], limits, depth)
    decreases items
  {
    if items != [] && n > 0 {
      SanitizeTrims(items[0], limits, depth);
      ItemsTrim(items[1..], limits, depth, n - 1);
      var out, rest := SanitizeItems(items, limits, depth, n), SanitizeItems(items[1..], limits, depth, n - 1);
      assert forall i | 0 < i < |out| :: out[i] == rest[i - 1] && items[i] == items[1..][i - 1];
    }
  }

  lemma {:induction false} FieldsTrim(fields: seq<Field>, limits: Limits, depth: nat, n: nat)
    ensures var out := SanitizeFields(fields, limits, depth, n);
      && |out| == Least(|fields|, n)
      && forall i | 0 <= i < |out| ::
           out[i].key == fields[i].key && Trims(fields[i].value, out[i].value, limits, depth)
    decreases fields
  {
    if fields != [] && n > 0 {
      SanitizeTrims(fields[0].value, limits, depth);
      FieldsTrim(fields[1..], limits, depth, n - 1);
      var out, rest := SanitizeFields(fields, limits, depth, n), SanitizeFields(fields[1..], limits, depth, n - 1);
      assert forall i | 0 < i < |out| :: out[i] == rest[i - 1] && fields[i] == fields[1..][i - 1];
    }
  }
}
