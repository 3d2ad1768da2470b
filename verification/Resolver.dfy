/** Resolving the expressions of a JSON value in a scope. */
module Resolver {
  import opened Text
  import opened Json
  import opened Templates
  import C = CanonicalJson

  datatype Mode = Legacy | Strict

  /** How numbers, booleans, arrays and objects are written into text. */
  type Writer = Json -> string

  // ----- reading a path

  function Member(v: Json, segment: string): Option<Json> {
    if v.Arr? && IsArrayIndex(segment) then (if NatOf(segment) < |v.items| then Some(v.items[NatOf(segment)]) else None)
    else if v.Obj? then C.Child(v, C.Key(segment))
    else None
  }

  function Lookup(v: Json, segments: seq<string>): Option<Json> {
    if segments == [] then Some(v) else
    var next := Member(v, segments[0]);
    if next.None? then None else Lookup(next.value, segments[1..])
  }

  method ReadPath(source: Json, segments: seq<string>) returns (r: Option<Json>)
    ensures r == Lookup(source, segments)
  {
    var current := source;
    assert segments[0..] == segments;
    for i := 0 to |segments|
      invariant Lookup(source, segments) == Lookup(current, segments[i..])
    {
      var segment := segments[i];
      assert segments[i..][1..] == segments[i + 1..];
      if current.Arr? && IsArrayIndex(segment) {
        if NatOf(segment) >= |current.items| { return None; }
        current := current.items[NatOf(segment)];
        continue;
      }
      if !current.Obj? { return None; }
      var j := C.Find(current.fields, segment);
      if j == |current.fields| { return None; }
      current := current.fields[j].value;
    }
    r := Some(current);
  }

  /** Paths compose: what is found under a longer path is found from what its front finds. */
  lemma {:induction false} LookupAppend(v: Json, a: seq<string>, b: seq<string>)
    ensures Lookup(v, a + b) == if Lookup(v, a).None? then None else Lookup(Lookup(v, a).value, b)
  {
    if a == [] {
      assert a + b == b;
    } else {
      assert (a + b)[1..] == a[1..] + b;
      var next := Member(v, a[0]);
      if next.Some? { LookupAppend(next.value, a[1..], b); }
    }
  }

  // ----- templates

  function Written(v: Json, write: Writer): string {
    if v.Str? then v.s else write(v)
  }

  /** What one part contributes; nothing is found for a null. */
  function Filled(part: Part, scope: Json, mode: Mode, write: Writer): Result<string> {
    match part
    case TextPart(text) => Ok(text)
    case Expression(path) =>
      var found := Lookup(scope, path.segments);
      if found.Some? && !found.value.Null? then Ok(Written(found.value, write))
      else if mode.Legacy? then Ok("") else Bad(PathNotFound)
  }

  function Fill(parts: seq<Part>, scope: Json, mode: Mode, write: Writer): Result<string> {
    if parts == [] then Ok("") else
    var first := Filled(parts[0], scope, mode, write);
    if first.Bad? then first else
    var rest := Fill(parts[1..], scope, mode, write);
    if rest.Bad? then rest else Ok(first.value + rest.value)
  }

  function Resolve(parsed: Parsed, scope: Json, mode: Mode, write: Writer): Result<Json> {
    if parsed.isSingleExpression && parsed.parts != [] then
      if parsed.parts[0].TextPart? then Ok(Str(parsed.source)) else
      var found := Lookup(scope, parsed.parts[0].path.segments);
      if found.Some? then Ok(found.value) else if mode.Legacy? then Ok(Str("")) else Bad(PathNotFound)
    else
      var text := Fill(parsed.parts, scope, mode, write);
      if text.Bad? then Bad(text.error) else Ok(Str(text.value))
  }

  /** The loop that joins the parts. */
  method Interpolate(parts: seq<Part>, scope: Json, mode: Mode, write: Writer) returns (r: Result<string>)
    ensures r == Fill(parts, scope, mode, write)
  {
    var output := "";
    assert parts[0..] == parts;
    ExtendNone(Fill(parts, scope, mode, write));
    for i := 0 to |parts|
      invariant Fill(parts, scope, mode, write) == Extend(output, Fill(parts[i..], scope, mode, write))
    {
      ghost var rest := Fill(parts[i + 1..], scope, mode, write);
      assert parts[i..][1..] == parts[i + 1..];
      if parts[i].TextPart? {
        ExtendTwice(output, parts[i].value, rest);
        output := output + parts[i].value;
        continue;
      }
      var found := ReadPath(scope, parts[i].path.segments);
      if found.None? || found.value.Null? {
        if mode.Legacy? {
          ExtendTwice(output, "", rest);
          output := output + "";
          continue;
        }
        return Bad(PathNotFound);
      }
      ExtendTwice(output, Written(found.value, write), rest);
      output := output + Written(found.value, write);
    }
    assert parts[|parts|..] == [] && output + "" == output;
    r := Ok(output);
  }

  method ResolveTemplate(parsed: Parsed, scope: Json, mode: Mode, write: Writer) returns (r: Result<Json>)
    requires parsed.isSingleExpression ==> parsed.parts != []
    ensures r == Resolve(parsed, scope, mode, write)
  {
    if parsed.isSingleExpression {
      if parsed.parts[0].TextPart? { return Ok(Str(parsed.source)); }
      var found := ReadPath(scope, parsed.parts[0].path.segments);
      if found.Some? { return Ok(found.value); }
      if mode.Legacy? { return Ok(Str("")); }
      return Bad(PathNotFound);
    }
    var text := Interpolate(parsed.parts, scope, mode, write);
    if text.Bad? { return Bad(text.error); }
    r := Ok(Str(text.value));
  }

  ghost function Extend(text: string, rest: Result<string>): Result<string> {
    if rest.Bad? then rest else Ok(text + rest.value)
  }

  lemma ExtendNone(rest: Result<string>)
    ensures Extend("", rest) == rest
  {
    if rest.Ok? { assert "" + rest.value == rest.value; }
  }

  lemma ExtendTwice(a: string, b: string, rest: Result<string>)
    ensures Extend(a, Extend(b, rest)) == Extend(a + b, rest)
  {
    if rest.Ok? { assert a + (b + rest.value) == (a + b) + rest.value; }
  }

  function ResolveString(s: string, scope: Json, mode: Mode, options: Options, write: Writer): Result<Json> {
    var parsed := Parse(s, options);
    if parsed.Bad? then Bad(parsed.error)
    else if parsed.value.expressionCount == 0 then Ok(Str(s))
    else Resolve(parsed.value, scope, mode, write)
  }

  // ----- values

  function ResolveValue(v: Json, scope: Json, mode: Mode, options: Options, write: Writer): Result<Json>
    decreases v
  {
    match v
    case Str(s) => ResolveString(s, scope, mode, options, write)
    case Arr(items) =>
      var r := ResolveItems(items, scope, mode, options, write);
      if r.Bad? then Bad(r.error) else Ok(Arr(r.value))
    case Obj(fields) =>
      var r := ResolveFields(fields, scope, mode, options, write);
      if r.Bad? then Bad(r.error) else Ok(Obj(r.value))
    case _ => Ok(v)
  }

  function ResolveItems(items: seq<Json>, scope: Json, mode: Mode, options: Options, write: Writer): Result<seq<Json>>
    decreases items
  {
    if items == [] then Ok([]) else
    var first := ResolveValue(items[0], scope, mode, options, write);
    if first.Bad? then Bad(first.error) else
    var rest := ResolveItems(items[1..], scope, mode, options, write);
    if rest.Bad? then rest else Ok([first.value] + rest.value)
  }

  function ResolveFields(fields: seq<Field>, scope: Json, mode: Mode, options: Options,
      write: Writer): Result<seq<Field>>
    decreases fields
  {
    if fields == [] then Ok([]) else
    var first := ResolveValue(fields[0].value, scope, mode, options, write);
    if first.Bad? then Bad(first.error) else
    var rest := ResolveFields(fields[1..], scope, mode, options, write);
    if rest.Bad? then rest else Ok([Field(fields[0].key, first.value)] + rest.value)
  }
}
