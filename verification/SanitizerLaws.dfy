/** Which keys the event sanitizer hides, and exactly when it reports that something was left out. */
module SanitizerLaws {
  import opened Text
  import opened Json
  import opened EventSanitizer

  // ----- which keys are hidden

  predicate IsAlnum(c: char) {
    'a' <= c <= 'z' || 'A' <= c <= 'Z' || '0' <= c <= '9'
  }

  /** The characters are equal, or one is the capital of the other. */
  predicate SameLetter(c: char, d: char) {
    || c == d
    || ('A' <= c <= 'Z' && d as int == c as int + 32)
  }

  /** The text is the name, up to case and up to characters that are neither letters nor digits. */
  predicate Spells(text: string, name: string) {
    if text == "" then name == "" else
    var n, c := |text| - 1, text[|text| - 1];
    if IsAlnum(c) then name != "" && SameLetter(c, name[|name| - 1]) && Spells(text[..n], name[..|name| - 1])
    else Spells(text[..n], name)
  }

  /** What a character contributes to a normalized key. */
  function Letter(c: char): string {
    if IsAlnum(c) then [Lower(c)] else ""
  }

  lemma NormalizeStep(key: string)
    requires key != ""
    ensures Normalize(key) == Letter(key[0]) + Normalize(key[1..])
  {
  }

  lemma {:induction false} NormalizeJoin(a: string, b: string)
    ensures Normalize(a + b) == Normalize(a) + Normalize(b)
  {
    if a == "" {
      assert a + b == b;
    } else {
      assert (a + b)[1..] == a[1..] + b && (a + b)[0] == a[0];
      NormalizeStep(a);
      NormalizeStep(a + b);
      NormalizeJoin(a[1..], b);
      JoinThree(Letter(a[0]), Normalize(a[1..]), Normalize(b));
    }
  }

  predicate LowerCase(name: string) {
    forall i | 0 <= i < |name| :: 'a' <= name[i] <= 'z' || '0' <= name[i] <= '9'
  }

  lemma NormalizeOne(c: char)
    ensures Normalize([c]) == Letter(c)
  {
    assert [c][1..] == "";
  }

  lemma {:induction false} SpellsExactly(text: string, name: string)
    requires LowerCase(name)
    ensures Spells(text, name) <==> Normalize(text) == name
  {
    if text != "" {
      var n, c := |text| - 1, text[|text| - 1];
      assert text == text[..n] + [c];
      NormalizeJoin(text[..n], [c]);
      NormalizeOne(c);
      if !IsAlnum(c) {
        assert Normalize(text[..n]) + "" == Normalize(text[..n]);
        SpellsExactly(text[..n], name);
      } else if name != "" {
        var d := name[|name| - 1];
        SpellsExactly(text[..n], name[..|name| - 1]);
        assert name == name[..|name| - 1] + [d];
        assert SameLetter(c, d) <==> Lower(c) == d;
        LastEqual(Normalize(text[..n]), Lower(c), name[..|name| - 1], d);
      }
    }
  }

  lemma LastEqual(a: string, c: char, b: string, d: char)
    ensures a + [c] == b + [d] <==> a == b && c == d
  {
    if a + [c] == b + [d] {
      assert (a + [c])[|a|] == c && (b + [d])[|b|] == d;
      assert (a + [c])[..|a|] == a && (b + [d])[..|b|] == b;
    }
  }

  lemma {:induction false} PrefixComesFrom(key: string, part: string) returns (j: nat)
    requires part <= Normalize(key)
    ensures j <= |key| && Normalize(key[..j]) == part
  {
    if part == "" {
      j := 0;
    } else {
      var c := key[0];
      assert key == [c] + key[1..];
      NormalizeJoin([c], key[1..]);
      NormalizeOne(c);
      if IsAlnum(c) {
        j := PrefixComesFrom(key[1..], part[1..]);
        assert part == [Lower(c)] + part[1..];
      } else {
        j := PrefixComesFrom(key[1..], part);
      }
      NormalizeJoin([c], key[1..][..j]);
      assert key[..j + 1] == [c] + key[1..][..j];
      j := j + 1;
    }
  }

  lemma {:induction false} IncludedComesFrom(key: string, part: string) returns (i: nat, j: nat)
    requires Includes(Normalize(key), part)
    ensures i <= j <= |key| && Normalize(key[i..j]) == part
  {
    if part <= Normalize(key) {
      j := PrefixComesFrom(key, part);
      i := 0;
      assert key[0..j] == key[..j];
    } else {
      var c := key[0];
      assert key == [c] + key[1..];
      NormalizeJoin([c], key[1..]);
      NormalizeOne(c);
      var rest := Normalize(key[1..]);
      if IsAlnum(c) { assert ([Lower(c)] + rest)[1..] == rest; } else { assert "" + rest == rest; }
      assert Includes(rest, part);
      i, j := IncludedComesFrom(key[1..], part);
      assert key[1..][i..j] == key[i + 1..j + 1];
      i, j := i + 1, j + 1;
    }
  }

  lemma {:induction false} MiddleIsIncluded(a: string, part: string, b: string)
    ensures Includes(a + part + b, part)
  {
    if a == "" {
      assert a + part + b == part + b;
    } else {
      assert (a + part + b)[1..] == a[1..] + part + b;
      MiddleIsIncluded(a[1..], part, b);
    }
  }

  lemma StretchIsIncluded(key: string, i: nat, j: nat)
    requires i <= j <= |key|
    ensures Includes(Normalize(key), Normalize(key[i..j]))
  {
    assert key == key[..i] + key[i..j] + key[j..];
    NormalizeJoin(key[..i] + key[i..j], key[j..]);
    NormalizeJoin(key[..i], key[i..j]);
    MiddleIsIncluded(Normalize(key[..i]), Normalize(key[i..j]), Normalize(key[j..]));
  }

  /** A stretch of the key spells one of the names. */
  ghost predicate HidesUnder(key: string, name: string) {
    exists i, j :: 0 <= i <= j <= |key| && Spells(key[i..j], name)
  }

  lemma HiddenUnder(key: string, name: string)
    requires LowerCase(name)
    ensures Includes(Normalize(key), name) <==> HidesUnder(key, name)
  {
    if Includes(Normalize(key), name) {
      var i, j := IncludedComesFrom(key, name);
      SpellsExactly(key[i..j], name);
    }
    forall i, j | 0 <= i <= j <= |key| && Spells(key[i..j], name)
      ensures Includes(Normalize(key), name)
    {
      SpellsExactly(key[i..j], name);
      StretchIsIncluded(key, i, j);
    }
  }

  /** A key hides its value exactly when a stretch of it spells a name of the list. */
  lemma SensitiveExactly(key: string)
    ensures Sensitive(key) <==> exists n | 0 <= n < |SENSITIVE| :: HidesUnder(key, SENSITIVE[n])
  {
    forall n | 0 <= n < |SENSITIVE|
      ensures Includes(Normalize(key), SENSITIVE[n]) <==> HidesUnder(key, SENSITIVE[n])
    {
      NamesAreLower(n);
      HiddenUnder(key, SENSITIVE[n]);
    }
  }

  lemma NamesAreLower(n: nat)
    requires n < |SENSITIVE|
    ensures LowerCase(SENSITIVE[n])
  {
  }

  // ----- when something is reported as left out

  /** Nothing outside sensitive values is too deep, too long or too many. */
  predicate Within(secret: Secrecy, v: Json, depth: nat) {
    && depth <= MAX_DEPTH
    && match v
       case Str(s) => |s| <= MAX_STRING
       case Arr(items) => |items| <= MAX_ARRAY && forall item | item in items :: Within(secret, item, depth + 1)
       case Obj(fields) => forall f | f in fields :: secret(f.key) || Within(secret, f.value, depth + 1)
       case _ => true
  }

  /** The keys outside sensitive values. */
  function Visible(secret: Secrecy, v: Json): nat
    decreases v
  {
    match v
    case Arr(items) => VisibleItems(secret, items)
    case Obj(fields) => VisibleFields(secret, fields)
    case _ => 0
  }

  function VisibleItems(secret: Secrecy, items: seq<Json>): nat
    decreases items
  {
    if items == [] then 0 else Visible(secret, items[0]) + VisibleItems(secret, items[1..])
  }

  function VisibleFields(secret: Secrecy, fields: seq<Field>): nat
    decreases fields
  {
    if fields == [] then 0 else
    1 + (if secret(fields[0].key) then 0 else Visible(secret, fields[0].value)) + VisibleFields(secret, fields[1..])
  }

  predicate Room(t: Tally, n: nat) {
    n == 0 || t.keys + n <= MAX_KEYS
  }

  /** `u` is `t` after `n` further keys, with nothing left out exactly when `ok` and the keys have room. */
  predicate Reports(t: Tally, u: Tally, ok: bool, n: nat) {
    && (!u.omitted <==> !t.omitted && ok && Room(t, n))
    && (!u.omitted ==> u.keys == t.keys + n)
  }

  lemma ReportsJoin(t: Tally, u: Tally, w: Tally, first: bool, rest: bool, m: nat, n: nat)
    requires Reports(t.(keys := t.keys + 1), u, first, m) && Reports(u, w, rest, n) && t.keys + 1 <= MAX_KEYS
    ensures Reports(t, w, first && rest, 1 + m + n)
  {
  }

  lemma {:induction false} OmittedExactly(secret: Secrecy, v: Json, depth: nat, t: Tally)
    ensures Reports(t, Sanitized(secret, v, depth, t).1, Within(secret, v, depth), Visible(secret, v))
    decreases v
  {
    NothingOmitted(secret, v, depth, t);
    if depth <= MAX_DEPTH {
      match v
      case Arr(items) =>
        if |items| <= MAX_ARRAY { ItemsOmitted(secret, items, depth + 1, t, MAX_ARRAY); }
        else { NothingOmittedItems(secret, items, depth + 1, t.(omitted := true), MAX_ARRAY); }
      case Obj(fields) => FieldsOmitted(secret, fields, depth + 1, t);
      case _ =>
    }
  }

  lemma {:induction false} ItemsOmitted(secret: Secrecy, items: seq<Json>, depth: nat, t: Tally, n: nat)
    requires |items| <= n
    ensures Reports(t, SanitizedItems(secret, items, depth, t, n).1,
                    forall item | item in items :: Within(secret, item, depth), VisibleItems(secret, items))
    decreases items
  {
    if items != [] {
      var u := Sanitized(secret, items[0], depth, t).1;
      OmittedExactly(secret, items[0], depth, t);
      ItemsOmitted(secret, items[1..], depth, u, n - 1);
      assert items == [items[0]] + items[1..];
    }
  }

  lemma {:induction false} FieldsOmitted(secret: Secrecy, fields: seq<Field>, depth: nat, t: Tally)
    ensures Reports(t, SanitizedFields(secret, fields, depth, t).1,
                    forall f | f in fields :: secret(f.key) || Within(secret, f.value, depth),
                    VisibleFields(secret, fields))
    decreases fields
  {
    if fields != [] && t.keys + 1 <= MAX_KEYS {
      var counted := t.(keys := t.keys + 1);
      var f, u := fields[0], SanitizedField(secret, fields[0], depth, counted).1;
      if !secret(f.key) { OmittedExactly(secret, f.value, depth, counted); }
      FieldsOmitted(secret, fields[1..], depth, u);
      assert fields == [f] + fields[1..];
      var w := SanitizedFields(secret, fields[1..], depth, u).1;
      assert SanitizedFields(secret, fields, depth, t).1 == w;
      ReportsJoin(t, u, w, secret(f.key) || Within(secret, f.value, depth),
                  forall g | g in fields[1..] :: secret(g.key) || Within(secret, g.value, depth),
                  if secret(f.key) then 0 else Visible(secret, f.value), VisibleFields(secret, fields[1..]));
    }
  }

  /** From the start: nothing is reported exactly when all is within the limits. */
  lemma NothingReported(secret: Secrecy, v: Json)
    ensures !Sanitized(secret, v, 0, Tally(0, false)).1.omitted <==>
      Within(secret, v, 0) && Visible(secret, v) <= MAX_KEYS
  {
    OmittedExactly(secret, v, 0, Tally(0, false));
  }

  // ----- what stays of a value

  /** The field keeps its key, and its value is hidden or trimmed. */
  ghost predicate TrimsField(secret: Secrecy, f: Field, out: Field, depth: nat)
    decreases f, 1
  {
    out.key == f.key && if secret(f.key) then out.value == REDACTED else Trims(secret, f.value, out.value, depth)
  }

  /** The first fields, each trimmed, before they are assigned. */
  ghost predicate TrimsFields(secret: Secrecy, fields: seq<Field>, raw: seq<Field>, depth: nat)
    decreases fields
  {
    |raw| <= |fields| && forall i | 0 <= i < |raw| :: TrimsField(secret, fields[i], raw[i], depth)
  }

  /** Strings and arrays keep their start, objects their first fields, and what lies too deep becomes a mark. */
  ghost predicate Trims(secret: Secrecy, v: Json, out: Json, depth: nat)
    decreases v, 0
  {
    if depth > MAX_DEPTH then out == TRUNCATED else
    match v
    case Str(s) => out == Str(if |s| <= MAX_STRING then s else s[..MAX_STRING])
    case Arr(items) =>
      && out.Arr? && |out.items| == (if |items| <= MAX_ARRAY then |items| else MAX_ARRAY)
      && forall i | 0 <= i < |out.items| :: Trims(secret, items[i], out.items[i], depth + 1)
    case Obj(fields) =>
      out.Obj? && exists raw :: out.fields == Assigned(raw) && TrimsFields(secret, fields, raw, depth + 1)
    case _ => out == v
  }

  lemma {:induction false} SanitizedTrims(secret: Secrecy, v: Json, depth: nat, t: Tally)
    ensures Trims(secret, v, Sanitized(secret, v, depth, t).0, depth)
    decreases v
  {
    if depth <= MAX_DEPTH {
      match v
      case Arr(items) =>
        ItemsTrim(secret, items, depth + 1, if |items| > MAX_ARRAY then t.(omitted := true) else t, MAX_ARRAY);
      case Obj(fields) =>
        FieldsTrim(secret, fields, depth + 1, t);
        var raw := SanitizedFields(secret, fields, depth + 1, t).0;
        assert TrimsFields(secret, fields, raw, depth + 1);
      case _ =>
    }
  }

  lemma {:induction false} ItemsTrim(secret: Secrecy, items: seq<Json>, depth: nat, t: Tally, n: nat)
    ensures var out := SanitizedItems(secret, items, depth, t, n).0;
      && |out| == (if |items| <= n then |items| else n)
      && forall i | 0 <= i < |out| :: Trims(secret, items[i], out[i], depth)
    decreases items
  {
    if items != [] && n > 0 {
      SanitizedTrims(secret, items[0], depth, t);
      var u := Sanitized(secret, items[0], depth, t).1;
      ItemsTrim(secret, items[1..], depth, u, n - 1);
      var out := SanitizedItems(secret, items, depth, t, n).0;
      var rest := SanitizedItems(secret, items[1..], depth, u, n - 1).0;
      assert forall i | 0 < i < |out| :: out[i] == rest[i - 1] && items[i] == items[1..][i - 1];
    }
  }

  /** Fields are dropped only once the keys are used up. */
  lemma {:induction false} FieldsTrim(secret: Secrecy, fields: seq<Field>, depth: nat, t: Tally)
    ensures TrimsFields(secret, fields, SanitizedFields(secret, fields, depth, t).0, depth)
    ensures var (raw, u) := SanitizedFields(secret, fields, depth, t); |raw| < |fields| ==> u.keys > MAX_KEYS
    decreases fields
  {
    if fields != [] && t.keys + 1 <= MAX_KEYS {
      var counted := t.(keys := t.keys + 1);
      var (first, u) := SanitizedField(secret, fields[0], depth, counted);
      if !secret(fields[0].key) { SanitizedTrims(secret, fields[0].value, depth, counted); }
      FieldsTrim(secret, fields[1..], depth, u);
      var raw, rest := SanitizedFields(secret, fields, depth, t).0, SanitizedFields(secret, fields[1..], depth, u).0;
      assert raw == [first] + rest;
      assert TrimsField(secret, fields[0], first, depth);
      forall i | 0 <= i < |raw|
        ensures TrimsField(secret, fields[i], raw[i], depth)
      {
        if i > 0 { assert raw[i] == rest[i - 1] && fields[i] == fields[1..][i - 1]; }
      }
    }
  }
}
