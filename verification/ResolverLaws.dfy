/** What resolving a value depends on, and when it succeeds. */
module ResolverLaws {
  import opened Text
  import opened Json
  import C = CanonicalJson
  import opened Templates
  import opened TemplateLaws
  import opened Resolver

  // ----- the strings and the paths of a value

  predicate EveryString(v: Json, ok: string -> bool) {
    match v
    case Str(s) => ok(s)
    case Arr(items) => forall item | item in items :: EveryString(item, ok)
    case Obj(fields) => forall field | field in fields :: EveryString(field.value, ok)
    case _ => true
  }

  predicate AllParse(v: Json, options: Options) {
    EveryString(v, (s: string) => Parse(s, options).Ok?)
  }

  predicate HasPath(parts: seq<Part>, path: Path) {
    Expression(path) in parts
  }

  /** The path is one of the expressions of some string of the value. */
  predicate Mentions(v: Json, path: Path, options: Options) {
    match v
    case Str(s) => Parse(s, options).Ok? && HasPath(Parse(s, options).value.parts, path)
    case Arr(items) => exists item | item in items :: Mentions(item, path, options)
    case Obj(fields) => exists field | field in fields :: Mentions(field.value, path, options)
    case _ => false
  }

  // ----- what a segment reads

  /** The decimal digits of a number. */
  function Decimal(n: nat): string {
    (if n < 10 then "" else Decimal(n / 10)) + [(n % 10 + '0' as int) as char]
  }

  lemma {:induction false} DecimalIsIndex(n: nat)
    ensures IsArrayIndex(Decimal(n)) && NatOf(Decimal(n)) == n
  {
    var digit := (n % 10 + '0' as int) as char;
    assert IsDigit(digit);
    if n < 10 {
      assert Decimal(n) == [digit] && [digit][..0] == "";
    } else {
      DecimalIsIndex(n / 10);
      assert Decimal(n) == Decimal(n / 10) + [digit];
      assert Decimal(n)[..|Decimal(n)| - 1] == Decimal(n / 10);
    }
  }

  /** Digits read the item of an array at that position; in an object they are a key like any other. */
  lemma SegmentReads(v: Json, n: nat, key: string)
    ensures v.Arr? ==> Lookup(v, [Decimal(n)]) == if n < |v.items| then Some(v.items[n]) else None
    ensures v.Arr? && !IsArrayIndex(key) ==> Lookup(v, [key]) == None
    ensures v.Obj? ==> Lookup(v, [key]) == C.Child(v, C.Key(key))
    ensures !v.Arr? && !v.Obj? ==> Lookup(v, [key]) == None
  {
    DecimalIsIndex(n);
    assert [Decimal(n)][1..] == [] && [key][1..] == [];
  }

  // ----- what a template resolves to

  /** Text around one expression. */
  function Around(t: string, path: Path, u: string): seq<Part> {
    (if t == "" then [] else [TextPart(t)]) + [Expression(path)] + (if u == "" then [] else [TextPart(u)])
  }

  predicate NoBraces(s: string) {
    '{' !in s && '}' !in s
  }

  lemma NoBracesSingle(s: string)
    requires NoBraces(s)
    ensures Single(s, '{') && Single(s, '}') && NextMatch(s).None?
  {
    assert forall i | 0 <= i < |s| :: s[i] in s;
  }

  lemma PathIsSingle(path: Path, options: Options)
    requires PathOf(path.raw, options) == Ok(path)
    ensures Single(path.raw, '}')
  {
    PathIsPlain(path.raw, options);
    assert forall i | 0 <= i < |path.raw| :: IsPlain(path.raw[i]) && path.raw[i] != '}';
  }

  lemma AroundPieces(t: string, path: Path, u: string)
    ensures Pieces(Around(t, path, u)) == Leading(t) + [Braced(path.raw)] + Leading(u)
  {
  }

  lemma AroundPrints(t: string, path: Path, u: string)
    ensures Print(Around(t, path, u)) == t + "{{" + path.raw + "}}" + u
  {
    AroundPieces(t, path, u);
    var tail := [Braced(path.raw)] + Leading(u);
    assert tail[1..] == Leading(u) && Leading(u)[|Leading(u)|..] == [];
    assert Unchop(Leading(u)) == u by { if u != "" { assert [Plain(u)][1..] == [] && u + "" == u; } }
    assert Unchop(tail) == "{{" + path.raw + "}}" + u;
    if t == "" {
      assert Pieces(Around(t, path, u)) == tail;
      assert t + "{{" + path.raw + "}}" + u == "{{" + path.raw + "}}" + u;
    } else {
      assert Pieces(Around(t, path, u)) == [Plain(t)] + tail && ([Plain(t)] + tail)[1..] == tail;
      assert t + "{{" + path.raw + "}}" + u == t + ("{{" + path.raw + "}}" + u);
    }
  }

  lemma AroundApart(t: string, path: Path, u: string, options: Options)
    requires NoBraces(t) && NoBraces(u) && PathOf(path.raw, options) == Ok(path)
    ensures Apart(Pieces(Around(t, path, u)))
  {
    AroundPieces(t, path, u);
    NoBracesSingle(t);
    NoBracesSingle(u);
    PathIsSingle(path, options);
    var tail := [Braced(path.raw)] + Leading(u);
    assert tail[1..] == Leading(u) && (u != "" ==> Leading(u)[1..] == []);
    assert Apart(tail);
    if t == "" {
      assert Pieces(Around(t, path, u)) == tail;
    } else {
      assert Pieces(Around(t, path, u)) == [Plain(t)] + tail && ([Plain(t)] + tail)[1..] == tail;
    }
  }

  lemma AroundCounts(t: string, path: Path, u: string)
    ensures CountOf(Around(t, path, u)) == 1
  {
    var a, b, c := if t == "" then [] else [TextPart(t)], [Expression(path)], if u == "" then [] else [TextPart(u)];
    CountAppend(a + b, c);
    CountAppend(a, b);
    assert CountOf(b[1..]) == 0;
    if t != "" { assert a[1..] == []; }
    if u != "" { assert c[1..] == []; }
  }

  lemma AroundParses(t: string, path: Path, u: string, s: string, options: Options)
    requires NoBraces(t) && NoBraces(u) && PathOf(path.raw, options) == Ok(path) && 1 <= options.maxInterpolations
    requires s == t + "{{" + path.raw + "}}" + u
    ensures Parse(s, options) == Ok(Describe(s, Around(t, path, u)))
  {
    AroundPrints(t, path, u);
    AroundApart(t, path, u, options);
    AroundCounts(t, path, u);
    NoBracesSingle(u);
    PrintThenParse(Around(t, path, u), options);
  }

  lemma OneParses(path: Path, options: Options)
    requires PathOf(path.raw, options) == Ok(path) && 1 <= options.maxInterpolations
    ensures Parse("{{" + path.raw + "}}", options) == Ok(Describe("{{" + path.raw + "}}", [Expression(path)]))
    ensures CountOf([Expression(path)]) == 1
  {
    var s := "{{" + path.raw + "}}";
    assert s == "" + "{{" + path.raw + "}}" + "" && Around("", path, "") == [Expression(path)];
    AroundParses("", path, "", s, options);
    AroundCounts("", path, "");
  }

  /** What a parsed string with an expression resolves to, by its parts. */
  lemma ResolveParts(s: string, parts: seq<Part>, scope: Json, mode: Mode, options: Options, write: Writer)
    requires Parse(s, options) == Ok(Describe(s, parts)) && CountOf(parts) > 0
    ensures ResolveString(s, scope, mode, options, write) == Resolve(Describe(s, parts), scope, mode, write)
  {
  }

  lemma ResolveOne(s: string, path: Path, scope: Json, mode: Mode, write: Writer)
    ensures var found := Lookup(scope, path.segments);
      Resolve(Describe(s, [Expression(path)]), scope, mode, write) ==
        if found.Some? then Ok(found.value) else if mode.Legacy? then Ok(Str("")) else Bad(PathNotFound)
  {
  }

  lemma ResolveMany(s: string, parts: seq<Part>, scope: Json, mode: Mode, write: Writer)
    requires |parts| > 1
    ensures var text := Fill(parts, scope, mode, write);
      Resolve(Describe(s, parts), scope, mode, write) == if text.Bad? then Bad(text.error) else Ok(Str(text.value))
  {
  }

  /** An expression alone gives the value found, of any type; nothing is found: an empty string, or a failure. */
  lemma ExpressionReads(path: Path, scope: Json, mode: Mode, options: Options, write: Writer)
    requires PathOf(path.raw, options) == Ok(path) && 1 <= options.maxInterpolations
    ensures var found := Lookup(scope, path.segments);
      ResolveString("{{" + path.raw + "}}", scope, mode, options, write) ==
        if found.Some? then Ok(found.value) else if mode.Legacy? then Ok(Str("")) else Bad(PathNotFound)
  {
    var s := "{{" + path.raw + "}}";
    OneParses(path, options);
    ResolveParts(s, [Expression(path)], scope, mode, options, write);
    ResolveOne(s, path, scope, mode, write);
  }

  lemma {:induction false} FillAround(t: string, path: Path, u: string, scope: Json, mode: Mode, write: Writer)
    ensures var x := Filled(Expression(path), scope, mode, write);
      Fill(Around(t, path, u), scope, mode, write) == if x.Bad? then x else Ok(t + x.value + u)
  {
    var a, b, c := if t == "" then [] else [TextPart(t)], [Expression(path)], if u == "" then [] else [TextPart(u)];
    FillAppend(a + b, c, scope, mode, write);
    FillAppend(a, b, scope, mode, write);
    FillText(t, scope, mode, write);
    FillText(u, scope, mode, write);
    var x := Filled(b[0], scope, mode, write);
    assert b[1..] == [] && (x.Ok? ==> x.value + "" == x.value);
  }

  lemma FillText(t: string, scope: Json, mode: Mode, write: Writer)
    ensures Fill(if t == "" then [] else [TextPart(t)], scope, mode, write) == Ok(t)
  {
    if t != "" { assert [TextPart(t)][1..] == [] && t + "" == t; }
  }

  /** What stands in the text for what is found under a path. */
  lemma FilledExactly(path: Path, scope: Json, mode: Mode, write: Writer)
    ensures var found := Lookup(scope, path.segments);
      Filled(Expression(path), scope, mode, write) ==
        if found.Some? && found.value.Str? then Ok(found.value.s)
        else if found.Some? && !found.value.Null? then Ok(write(found.value))
        else if mode.Legacy? then Ok("") else Bad(PathNotFound)
  {
  }

  lemma AroundResolves(t: string, path: Path, u: string, s: string, scope: Json, mode: Mode, options: Options,
                       write: Writer)
    requires NoBraces(t) && NoBraces(u) && (t != "" || u != "") && s == t + "{{" + path.raw + "}}" + u
    requires PathOf(path.raw, options) == Ok(path) && 1 <= options.maxInterpolations
    ensures var x := Filled(Expression(path), scope, mode, write);
      ResolveString(s, scope, mode, options, write) == if x.Bad? then Bad(x.error) else Ok(Str(t + x.value + u))
  {
    var parts := Around(t, path, u);
    AroundParses(t, path, u, s, options);
    AroundCounts(t, path, u);
    ResolveParts(s, parts, scope, mode, options, write);
    ResolveMany(s, parts, scope, mode, write);
    FillAround(t, path, u, scope, mode, write);
  }

  lemma BetweenText(t: string, u: string, x: Result<string>)
    ensures x == Ok("") ==> t + x.value + u == t + u
  {
    assert t + "" == t;
  }

  /** Inside text, a string stands as it is, other values as they are written, a missing one and a null as nothing. */
  lemma TextReads(t: string, path: Path, u: string, scope: Json, mode: Mode, options: Options, write: Writer)
    requires NoBraces(t) && NoBraces(u) && (t != "" || u != "")
    requires PathOf(path.raw, options) == Ok(path) && 1 <= options.maxInterpolations
    ensures var found := Lookup(scope, path.segments);
      ResolveString(t + "{{" + path.raw + "}}" + u, scope, mode, options, write) ==
        if found.Some? && found.value.Str? then Ok(Str(t + found.value.s + u))
        else if found.Some? && !found.value.Null? then Ok(Str(t + write(found.value) + u))
        else if mode.Legacy? then Ok(Str(t + u)) else Bad(PathNotFound)
  {
    var s := t + "{{" + path.raw + "}}" + u;
    AroundResolves(t, path, u, s, scope, mode, options, write);
    FilledExactly(path, scope, mode, write);
    BetweenText(t, u, Filled(Expression(path), scope, mode, write));
  }

  /** A string without expressions gives itself. */
  lemma PlainIsItself(s: string, scope: Json, mode: Mode, options: Options, write: Writer)
    requires !Includes(s, '{') && !Includes(s, '}')
    ensures ResolveString(s, scope, mode, options, write) == Ok(Str(s))
  {
    assert NextMatch(s).None?;
    ReadIsExact(Chop(s), if s == "" then [] else [TextPart(s)], 0, options);
    assert [TextPart(s)][1..] == [] && CountOf([TextPart(s)]) == 0;
  }

  /** The text of joined parts is the joined text. */
  lemma {:induction false} FillAppend(a: seq<Part>, b: seq<Part>, scope: Json, mode: Mode, write: Writer)
    ensures var x, y := Fill(a, scope, mode, write), Fill(b, scope, mode, write);
      Fill(a + b, scope, mode, write) == if x.Bad? then x else if y.Bad? then y else Ok(x.value + y.value)
  {
    if a == [] {
      assert a + b == b && forall t: string :: "" + t == t;
    } else {
      assert (a + b)[1..] == a[1..] + b && (a + b)[0] == a[0];
      FillAppend(a[1..], b, scope, mode, write);
      var first, rest, y := Filled(a[0], scope, mode, write), Fill(a[1..], scope, mode, write),
          Fill(b, scope, mode, write);
      if first.Ok? && rest.Ok? && y.Ok? {
        assert first.value + (rest.value + y.value) == (first.value + rest.value) + y.value;
      }
    }
  }

  // ----- strict and legacy

  lemma {:induction false} FillAgrees(parts: seq<Part>, scope: Json, write: Writer)
    requires Fill(parts, scope, Strict, write).Ok?
    ensures Fill(parts, scope, Legacy, write) == Fill(parts, scope, Strict, write)
  {
    if parts != [] { FillAgrees(parts[1..], scope, write); }
  }

  /** Where strict resolution succeeds, legacy resolution gives the same value. */
  lemma {:induction false} StrictIsLegacy(v: Json, scope: Json, options: Options, write: Writer)
    requires ResolveValue(v, scope, Strict, options, write).Ok?
    ensures ResolveValue(v, scope, Legacy, options, write) == ResolveValue(v, scope, Strict, options, write)
    decreases v
  {
    match v
    case Str(s) => StringAgrees(s, scope, options, write);
    case Arr(items) => ItemsAgree(items, scope, options, write);
    case Obj(fields) => FieldsAgree(fields, scope, options, write);
    case _ =>
  }

  lemma StringAgrees(s: string, scope: Json, options: Options, write: Writer)
    requires ResolveString(s, scope, Strict, options, write).Ok?
    ensures ResolveString(s, scope, Legacy, options, write) == ResolveString(s, scope, Strict, options, write)
  {
    var parsed := Parse(s, options).value;
    if Fill(parsed.parts, scope, Strict, write).Ok? { FillAgrees(parsed.parts, scope, write); }
  }

  lemma {:induction false} ItemsAgree(items: seq<Json>, scope: Json, options: Options, write: Writer)
    requires ResolveItems(items, scope, Strict, options, write).Ok?
    ensures ResolveItems(items, scope, Legacy, options, write) == ResolveItems(items, scope, Strict, options, write)
    decreases items
  {
    if items != [] {
      StrictIsLegacy(items[0], scope, options, write);
      ItemsAgree(items[1..], scope, options, write);
    }
  }

  lemma {:induction false} FieldsAgree(fields: seq<Field>, scope: Json, options: Options, write: Writer)
    requires ResolveFields(fields, scope, Strict, options, write).Ok?
    ensures ResolveFields(fields, scope, Legacy, options, write) == ResolveFields(fields, scope, Strict, options, write)
    decreases fields
  {
    if fields != [] {
      StrictIsLegacy(fields[0].value, scope, options, write);
      FieldsAgree(fields[1..], scope, options, write);
    }
  }

  lemma {:induction false} LegacyFills(parts: seq<Part>, scope: Json, write: Writer)
    ensures Fill(parts, scope, Legacy, write).Ok?
  {
    if parts != [] { LegacyFills(parts[1..], scope, write); }
  }

  /** Legacy resolution succeeds exactly on values whose strings all parse, whatever the scope. */
  lemma {:induction false} LegacySucceeds(v: Json, scope: Json, options: Options, write: Writer)
    ensures ResolveValue(v, scope, Legacy, options, write).Ok? <==> AllParse(v, options)
    decreases v
  {
    match v
    case Str(s) => if Parse(s, options).Ok? { LegacyFills(Parse(s, options).value.parts, scope, write); }
    case Arr(items) => LegacyItems(items, scope, options, write);
    case Obj(fields) => LegacyFields(fields, scope, options, write);
    case _ =>
  }

  lemma {:induction false} LegacyItems(items: seq<Json>, scope: Json, options: Options, write: Writer)
    ensures ResolveItems(items, scope, Legacy, options, write).Ok? <==>
      forall item | item in items :: AllParse(item, options)
    decreases items
  {
    if items != [] {
      LegacySucceeds(items[0], scope, options, write);
      LegacyItems(items[1..], scope, options, write);
    }
  }

  lemma {:induction false} LegacyFields(fields: seq<Field>, scope: Json, options: Options, write: Writer)
    ensures ResolveFields(fields, scope, Legacy, options, write).Ok? <==>
      forall field | field in fields :: AllParse(field.value, options)
    decreases fields
  {
    if fields != [] {
      LegacySucceeds(fields[0].value, scope, options, write);
      LegacyFields(fields[1..], scope, options, write);
    }
  }

  /** Every expression is found, and not null where it is written into text. */
  predicate Satisfied(s: string, scope: Json, options: Options) {
    var parsed := Parse(s, options);
    && parsed.Ok?
    && forall part | part in parsed.value.parts && part.Expression? ::
         var found := Lookup(scope, part.path.segments);
         found.Some? && (!found.value.Null? || parsed.value.isSingleExpression)
  }

  predicate AllSatisfied(v: Json, scope: Json, options: Options) {
    EveryString(v, (s: string) => Satisfied(s, scope, options))
  }

  lemma {:induction false} StrictFills(parts: seq<Part>, scope: Json, write: Writer)
    ensures Fill(parts, scope, Strict, write).Ok? <==>
      forall part | part in parts :: Filled(part, scope, Strict, write).Ok?
  {
    if parts != [] { StrictFills(parts[1..], scope, write); }
  }

  lemma {:induction false} HasExpression(parts: seq<Part>)
    ensures CountOf(parts) == 0 <==> forall part | part in parts :: part.TextPart?
  {
    if parts != [] {
      HasExpression(parts[1..]);
      assert parts[0] in parts && parts == [parts[0]] + parts[1..];
    }
  }

  lemma StrictString(s: string, scope: Json, options: Options, write: Writer)
    ensures ResolveString(s, scope, Strict, options, write).Ok? <==> Satisfied(s, scope, options)
  {
    if Parse(s, options).Ok? {
      var parsed := Parse(s, options).value;
      HasExpression(parsed.parts);
      if parsed.isSingleExpression {
        assert parsed.parts == [parsed.parts[0]];
      } else {
        StrictFills(parsed.parts, scope, write);
      }
    }
  }

  /** Strict resolution succeeds exactly when every string parses and every expression is found. */
  lemma {:induction false} StrictSucceeds(v: Json, scope: Json, options: Options, write: Writer)
    ensures ResolveValue(v, scope, Strict, options, write).Ok? <==> AllSatisfied(v, scope, options)
    decreases v
  {
    match v
    case Str(s) => StrictString(s, scope, options, write);
    case Arr(items) => StrictItems(items, scope, options, write);
    case Obj(fields) => StrictFields(fields, scope, options, write);
    case _ =>
  }

  lemma {:induction false} StrictItems(items: seq<Json>, scope: Json, options: Options, write: Writer)
    ensures ResolveItems(items, scope, Strict, options, write).Ok? <==>
      forall item | item in items :: AllSatisfied(item, scope, options)
    decreases items
  {
    if items != [] {
      StrictSucceeds(items[0], scope, options, write);
      StrictItems(items[1..], scope, options, write);
    }
  }

  lemma {:induction false} StrictFields(fields: seq<Field>, scope: Json, options: Options, write: Writer)
    ensures ResolveFields(fields, scope, Strict, options, write).Ok? <==>
      forall field | field in fields :: AllSatisfied(field.value, scope, options)
    decreases fields
  {
    if fields != [] {
      StrictSucceeds(fields[0].value, scope, options, write);
      StrictFields(fields[1..], scope, options, write);
    }
  }

  // ----- the shape of the result

  lemma {:induction false} ItemResolved(items: seq<Json>, scope: Json, mode: Mode, options: Options, write: Writer,
      i: nat)
    requires ResolveItems(items, scope, mode, options, write).Ok? && i < |items|
    ensures var r := ResolveItems(items, scope, mode, options, write).value;
      |r| == |items| && ResolveValue(items[i], scope, mode, options, write) == Ok(r[i])
  {
    if |items| > 1 { ItemResolved(items[1..], scope, mode, options, write, if i > 0 then i - 1 else 0); }
  }

  lemma {:induction false} FieldResolved(fields: seq<Field>, scope: Json, mode: Mode, options: Options, write: Writer,
      i: nat)
    requires ResolveFields(fields, scope, mode, options, write).Ok? && i < |fields|
    ensures var r := ResolveFields(fields, scope, mode, options, write).value;
      |r| == |fields| && r[i].key == fields[i].key &&
          ResolveValue(fields[i].value, scope, mode, options, write) == Ok(r[i].value)
  {
    if |fields| > 1 { FieldResolved(fields[1..], scope, mode, options, write, if i > 0 then i - 1 else 0); }
  }

  /**
   Resolving keeps arrays and objects: each has the same positions or keys in the same order, each holding its own
   resolved value.
   */
  lemma ShapeIsKept(v: Json, scope: Json, mode: Mode, options: Options, write: Writer)
    requires ResolveValue(v, scope, mode, options, write).Ok? && !v.Str?
    ensures var r := ResolveValue(v, scope, mode, options, write).value;
      if v.Arr? then r.Arr? && |r.items| == |v.items| &&
          forall i | 0 <= i < |v.items| :: ResolveValue(v.items[i], scope, mode, options, write) == Ok(r.items[i])
      else if v.Obj? then r.Obj? && C.KeyList(r.fields) == C.KeyList(v.fields) &&
        forall i | 0 <= i < |v.fields| ::
            ResolveValue(v.fields[i].value, scope, mode, options, write) == Ok(r.fields[i].value)
      else r == v
  {
    match v
    case Arr(items) =>
      forall i | 0 <= i < |items| { ItemResolved(items, scope, mode, options, write, i); }
      if items != [] { ItemResolved(items, scope, mode, options, write, 0); }
    case Obj(fields) =>
      forall i | 0 <= i < |fields| { FieldResolved(fields, scope, mode, options, write, i); }
      if fields != [] { FieldResolved(fields, scope, mode, options, write, 0); }
    case _ =>
  }

  // ----- resolution reads its paths and nothing else

  ghost predicate SameAt(v: Json, a: Json, b: Json, options: Options) {
    forall path | Mentions(v, path, options) :: Lookup(a, path.segments) == Lookup(b, path.segments)
  }

  ghost predicate PartsAgree(parts: seq<Part>, a: Json, b: Json) {
    forall part | part in parts && part.Expression? :: Lookup(a, part.path.segments) == Lookup(b, part.path.segments)
  }

  lemma {:induction false} FillReads(parts: seq<Part>, a: Json, b: Json, mode: Mode, write: Writer)
    requires PartsAgree(parts, a, b)
    ensures Fill(parts, a, mode, write) == Fill(parts, b, mode, write)
  {
    if parts != [] {
      assert parts[0] in parts;
      assert Filled(parts[0], a, mode, write) == Filled(parts[0], b, mode, write);
      FillReads(parts[1..], a, b, mode, write);
    }
  }

  lemma TemplateReads(parsed: Parsed, a: Json, b: Json, mode: Mode, write: Writer)
    requires PartsAgree(parsed.parts, a, b)
    ensures Resolve(parsed, a, mode, write) == Resolve(parsed, b, mode, write)
  {
    FillReads(parsed.parts, a, b, mode, write);
    assert parsed.parts != [] ==> parsed.parts[0] in parsed.parts;
  }

  lemma StringAgreement(s: string, a: Json, b: Json, options: Options)
    requires SameAt(Str(s), a, b, options) && Parse(s, options).Ok?
    ensures PartsAgree(Parse(s, options).value.parts, a, b)
  {
    var parts := Parse(s, options).value.parts;
    forall part | part in parts && part.Expression?
      ensures Lookup(a, part.path.segments) == Lookup(b, part.path.segments)
    {
      assert HasPath(parts, part.path) && Mentions(Str(s), part.path, options);
    }
  }

  lemma StringReads(s: string, a: Json, b: Json, mode: Mode, options: Options, write: Writer)
    requires SameAt(Str(s), a, b, options)
    ensures ResolveString(s, a, mode, options, write) == ResolveString(s, b, mode, options, write)
  {
    if Parse(s, options).Ok? {
      StringAgreement(s, a, b, options);
      TemplateReads(Parse(s, options).value, a, b, mode, write);
    }
  }

  lemma ItemAgreement(v: Json, a: Json, b: Json, options: Options)
    requires SameAt(v, a, b, options)
    ensures v.Arr? ==> forall item | item in v.items :: SameAt(item, a, b, options)
    ensures v.Obj? ==> forall field | field in v.fields :: SameAt(field.value, a, b, options)
  {
    assert v.Arr? ==>
      forall item, path | item in v.items && Mentions(item, path, options) :: Mentions(v, path, options);
    assert v.Obj? ==>
      forall field, path | field in v.fields && Mentions(field.value, path, options) :: Mentions(v, path, options);
  }

  /** Two scopes that agree on the paths of a value resolve it alike. */
  lemma {:induction false} ResolveReads(v: Json, a: Json, b: Json, mode: Mode, options: Options, write: Writer)
    requires SameAt(v, a, b, options)
    ensures ResolveValue(v, a, mode, options, write) == ResolveValue(v, b, mode, options, write)
    decreases v
  {
    ItemAgreement(v, a, b, options);
    match v
    case Str(s) => StringReads(s, a, b, mode, options, write);
    case Arr(items) => ItemsRead(items, a, b, mode, options, write);
    case Obj(fields) => FieldsRead(fields, a, b, mode, options, write);
    case _ =>
  }

  lemma {:induction false} ItemsRead(items: seq<Json>, a: Json, b: Json, mode: Mode, options: Options, write: Writer)
    requires forall item | item in items :: SameAt(item, a, b, options)
    ensures ResolveItems(items, a, mode, options, write) == ResolveItems(items, b, mode, options, write)
    decreases items
  {
    if items != [] {
      assert items[0] in items;
      ResolveReads(items[0], a, b, mode, options, write);
      ItemsRead(items[1..], a, b, mode, options, write);
    }
  }

  lemma {:induction false} FieldsRead(fields: seq<Field>, a: Json, b: Json, mode: Mode, options: Options, write: Writer)
    requires forall field | field in fields :: SameAt(field.value, a, b, options)
    ensures ResolveFields(fields, a, mode, options, write) == ResolveFields(fields, b, mode, options, write)
    decreases fields
  {
    if fields != [] {
      assert fields[0] in fields;
      ResolveReads(fields[0].value, a, b, mode, options, write);
      FieldsRead(fields[1..], a, b, mode, options, write);
    }
  }
}
