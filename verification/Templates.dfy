/** Templates: text with `{{ path }}` expressions. */
module Templates {
  import opened Text

  datatype Options = Options(maxExpressionLength: nat, maxInterpolations: nat, maxPathDepth: nat, maxArrayIndex: nat)

  const DEFAULTS := Options(512, 50, 16, 10_000)

  datatype Error = SyntaxInvalid | SegmentForbidden | PathNotFound

  datatype Result<T> = Ok(value: T) | Bad(error: Error)

  // ----- paths

  const UNSUPPORTED := "()[]'\"`|+-*/%?:,"
  const FORBIDDEN := {"__proto__", "prototype", "constructor", "eval"}

  predicate IsDigit(c: char) {
    '0' <= c <= '9'
  }

  predicate IsWordStart(c: char) {
    'A' <= c <= 'Z' || 'a' <= c <= 'z' || c == '_'
  }

  predicate IsArrayIndex(segment: string) {
    segment != "" && forall i | 0 <= i < |segment| :: IsDigit(segment[i])
  }

  predicate IsIdentifier(segment: string) {
    segment != "" && IsWordStart(segment[0]) &&
    forall i | 0 < i < |segment| :: IsWordStart(segment[i]) || IsDigit(segment[i]) || segment[i] == '-'
  }

  function NatOf(digits: string): nat
    requires forall i | 0 <= i < |digits| :: IsDigit(digits[i])
  {
    if digits == "" then 0 else
    var last := digits[|digits| - 1];
    assert IsDigit(last);
    10 * NatOf(digits[..|digits| - 1]) + (last as int - '0' as int)
  }

  function Split(raw: string): (segments: seq<string>)
    ensures segments != []
  {
    if raw == "" then [""]
    else
      var rest := Split(raw[1..]);
      if raw[0] == '.' then [""] + rest else [[raw[0]] + rest[0]] + rest[1..]
  }

  function Join(segments: seq<string>): string
    requires segments != []
  {
    if |segments| == 1 then segments[0] else segments[0] + "." + Join(segments[1..])
  }

  datatype Path = Path(raw: string, segments: seq<string>)

  function SegmentError(segment: string, options: Options): Option<Error> {
    if segment in FORBIDDEN then Some(SegmentForbidden)
    else if IsArrayIndex(segment) then (if NatOf(segment) > options.maxArrayIndex then Some(SyntaxInvalid) else None)
    else if !IsIdentifier(segment) then Some(SyntaxInvalid)
    else None
  }

  function FirstError(segments: seq<string>, options: Options): Option<Error> {
    if segments == [] then None
    else if SegmentError(segments[0], options).Some? then SegmentError(segments[0], options)
    else FirstError(segments[1..], options)
  }

  function PathOf(raw: string, options: Options): Result<Path> {
    var segments := Split(raw);
    if raw == "" || |raw| > options.maxExpressionLength then Bad(SyntaxInvalid)
    else if exists i | 0 <= i < |raw| :: raw[i] in UNSUPPORTED then Bad(SyntaxInvalid)
    else if "" in segments || |segments| > options.maxPathDepth then Bad(SyntaxInvalid)
    else if FirstError(segments, options).Some? then Bad(FirstError(segments, options).value)
    else Ok(Path(raw, segments))
  }

  /** The loop over the segments of a path. */
  method ParsePath(raw: string, options: Options) returns (r: Result<Path>)
    ensures r == PathOf(raw, options)
    ensures r.Ok? ==> r.value.raw == Join(r.value.segments) && forall s | s in r.value.segments :: s !in FORBIDDEN
  {
    JoinSplit(raw);
    if raw == "" || |raw| > options.maxExpressionLength { return Bad(SyntaxInvalid); }
    if exists i | 0 <= i < |raw| :: raw[i] in UNSUPPORTED { return Bad(SyntaxInvalid); }
    var segments := Split(raw);
    if "" in segments || |segments| > options.maxPathDepth { return Bad(SyntaxInvalid); }
    assert segments[0..] == segments;
    for i := 0 to |segments|
      invariant FirstError(segments, options) == FirstError(segments[i..], options)
      invariant forall j | 0 <= j < i :: segments[j] !in FORBIDDEN
    {
      var error := SegmentError(segments[i], options);
      assert segments[i..][1..] == segments[i + 1..];
      if error.Some? { return Bad(error.value); }
    }
    r := Ok(Path(raw, segments));
  }

  lemma {:induction false} JoinSplit(raw: string)
    ensures Join(Split(raw)) == raw
  {
    if raw != "" {
      JoinSplit(raw[1..]);
      var rest := Split(raw[1..]);
      if raw[0] == '.' {
        assert ([""] + rest)[1..] == rest;
        assert "" + "." + raw[1..] == raw;
      } else {
        var all := [[raw[0]] + rest[0]] + rest[1..];
        assert all[1..] == rest[1..];
        assert raw == [raw[0]] + raw[1..];
        if |rest| > 1 {
          assert [raw[0]] + (rest[0] + "." + Join(rest[1..])) == ([raw[0]] + rest[0]) + "." + Join(rest[1..]);
        }
      }
    }
  }

  // ----- what an accepted path looks like

  /** Neither white space nor a brace: what can stand between the braces and be found again. */
  predicate IsPlain(c: char) {
    IsWordStart(c) || IsDigit(c) || c == '-' || c == '.'
  }

  lemma {:induction false} FirstErrorNone(segments: seq<string>, options: Options, i: nat)
    requires FirstError(segments, options).None? && i < |segments|
    ensures SegmentError(segments[i], options).None?
  {
    if i > 0 { FirstErrorNone(segments[1..], options, i - 1); }
  }

  lemma {:induction false} JoinPlain(segments: seq<string>)
    requires segments != [] && forall s | s in segments :: IsArrayIndex(s) || IsIdentifier(s)
    ensures forall i | 0 <= i < |Join(segments)| :: IsPlain(Join(segments)[i])
  {
    assert segments[0] in segments;
    if |segments| > 1 { JoinPlain(segments[1..]); }
  }

  lemma PathIsPlain(raw: string, options: Options)
    requires PathOf(raw, options).Ok?
    ensures raw != "" && Tight(raw) && forall i | 0 <= i < |raw| :: IsPlain(raw[i])
  {
    var segments := Split(raw);
    forall s | s in segments
      ensures IsArrayIndex(s) || IsIdentifier(s)
    {
      var i :| 0 <= i < |segments| && segments[i] == s;
      FirstErrorNone(segments, options, i);
    }
    JoinSplit(raw);
    JoinPlain(segments);
    assert IsPlain(raw[0]) && IsPlain(raw[|raw| - 1]);
  }

  // ----- templates

  datatype Part = TextPart(value: string) | Expression(path: Path)

  datatype Parsed = Parsed(source: string, parts: seq<Part>, expressionCount: nat, isSingleExpression: bool)

  predicate DoubleAt(s: string, c: char, i: int) {
    0 <= i && i + 1 < |s| && s[i] == c && s[i + 1] == c
  }

  /** The first position of a doubled character at or after `from`, or the length. */
  function FindDouble(s: string, c: char, from: nat): (i: nat)
    requires from <= |s|
    ensures from <= i <= |s| && (i < |s| ==> DoubleAt(s, c, i)) && forall j | from <= j < i :: !DoubleAt(s, c, j)
    decreases |s| - from
  {
    if from == |s| || DoubleAt(s, c, from) then from else FindDouble(s, c, from + 1)
  }

  predicate Includes(s: string, c: char) {
    exists i | 0 <= i < |s| :: DoubleAt(s, c, i)
  }

  /** The first expression: where it starts and where its closing braces are. */
  function NextMatch(s: string): (m: Option<(nat, nat)>)
    ensures m.Some? ==> m.value.0 + 2 <= m.value.1 && m.value.1 + 2 <= |s|
  {
    var i := FindDouble(s, '{', 0);
    if i == |s| then None else
    var j := FindDouble(s, '}', i + 2);
    if j == |s| then None else Some((i, j))
  }

  /** A template cut at its delimiters: text, or what stands between two pairs of braces. */
  datatype Piece = Plain(text: string) | Braced(inner: string)

  function Leading(text: string): seq<Piece> {
    if text == "" then [] else [Plain(text)]
  }

  function Chop(s: string): seq<Piece>
    decreases |s|
  {
    var m := NextMatch(s);
    if m.None? then Leading(s)
    else var (i, j) := m.value; Leading(s[..i]) + [Braced(s[i + 2..j])] + Chop(s[j + 2..])
  }

  function Prepend(parts: seq<Part>, rest: Result<seq<Part>>): Result<seq<Part>> {
    if rest.Bad? then rest else Ok(parts + rest.value)
  }

  /** One expression, when `count` came before it. */
  function ReadInner(inner: string, count: nat, options: Options): Result<Path> {
    if count + 1 > options.maxInterpolations then Bad(SyntaxInvalid) else PathOf(Trim(inner), options)
  }

  /** The parts of the pieces, when `count` expressions came before. */
  function ReadPieces(pieces: seq<Piece>, count: nat, options: Options): Result<seq<Part>> {
    if pieces == [] then Ok([])
    else match pieces[0]
      case Plain(text) =>
        if |pieces| == 1 && (Includes(text, '{') || Includes(text, '}')) then Bad(SyntaxInvalid)
        else Prepend([TextPart(text)], ReadPieces(pieces[1..], count, options))
      case Braced(inner) =>
        var path := ReadInner(inner, count, options);
        if path.Bad? then Bad(path.error)
        else Prepend([Expression(path.value)], ReadPieces(pieces[1..], count + 1, options))
  }

  function CountOf(parts: seq<Part>): nat {
    if parts == [] then 0 else (if parts[0].Expression? then 1 else 0) + CountOf(parts[1..])
  }

  function Describe(source: string, parts: seq<Part>): Parsed {
    Parsed(source, parts, CountOf(parts), |parts| == 1 && parts[0].Expression?)
  }

  function Parse(source: string, options: Options): Result<Parsed> {
    var parts := ReadPieces(Chop(source), 0, options);
    if parts.Bad? then Bad(parts.error) else Ok(Describe(source, parts.value))
  }

  lemma {:induction false} CountAppend(a: seq<Part>, b: seq<Part>)
    ensures CountOf(a + b) == CountOf(a) + CountOf(b)
  {
    if a == [] {
      assert a + b == b;
    } else {
      assert (a + b)[1..] == a[1..] + b;
      CountAppend(a[1..], b);
    }
  }

  lemma CountLast(parts: seq<Part>, part: Part)
    ensures CountOf(parts + [part]) == CountOf(parts) + if part.Expression? then 1 else 0
  {
    CountAppend(parts, [part]);
  }

  lemma PrependTwice(a: seq<Part>, b: seq<Part>, rest: Result<seq<Part>>)
    ensures Prepend(a, Prepend(b, rest)) == Prepend(a + b, rest)
  {
    if rest.Ok? { assert a + (b + rest.value) == (a + b) + rest.value; }
  }

  lemma PrependNone(rest: Result<seq<Part>>)
    ensures Prepend([], rest) == rest
  {
    if rest.Ok? { assert [] + rest.value == rest.value; }
  }

  /** Text in front of an expression is a part of its own. */
  lemma ReadLeading(text: string, rest: seq<Piece>, count: nat, options: Options)
    requires rest != []
    ensures ReadPieces(Leading(text) + rest, count, options) ==
      Prepend(if text == "" then [] else [TextPart(text)], ReadPieces(rest, count, options))
  {
    if text == "" {
      assert Leading(text) + rest == rest;
      PrependNone(ReadPieces(rest, count, options));
    } else {
      assert (Leading(text) + rest)[1..] == rest;
    }
  }

  lemma ReadBraced(inner: string, rest: seq<Piece>, count: nat, options: Options)
    ensures var path := ReadInner(inner, count, options);
      ReadPieces([Braced(inner)] + rest, count, options) ==
      if path.Bad? then Bad(path.error) else Prepend([Expression(path.value)], ReadPieces(rest, count + 1, options))
  {
    assert ([Braced(inner)] + rest)[1..] == rest;
  }

  /** One turn of the scanning loop: the text before the next expression, and the expression. */
  method ScanNext(text: string, inner: string, ghost rest: seq<Piece>, count: nat, options: Options)
    returns (r: Result<seq<Part>>)
    ensures var all := ReadPieces(Leading(text) + [Braced(inner)] + rest, count, options);
      if r.Bad? then all == r
      else CountOf(r.value) == 1 && all == Prepend(r.value, ReadPieces(rest, count + 1, options))
  {
    assert Leading(text) + [Braced(inner)] + rest == Leading(text) + ([Braced(inner)] + rest);
    ReadLeading(text, [Braced(inner)] + rest, count, options);
    ReadBraced(inner, rest, count, options);
    var parts: seq<Part> := [];
    if text != "" { parts := [TextPart(text)]; }
    if count + 1 > options.maxInterpolations { return Bad(SyntaxInvalid); }
    var path := ParsePath(Trim(inner), options);
    if path.Bad? { return Bad(path.error); }
    CountLast(parts, Expression(path.value));
    PrependTwice(parts, [Expression(path.value)], ReadPieces(rest, count + 1, options));
    r := Ok(parts + [Expression(path.value)]);
  }

  /** The text after the last expression. */
  method ScanTail(text: string, ghost count: nat, options: Options) returns (r: Result<seq<Part>>)
    ensures r == ReadPieces(Leading(text), count, options)
    ensures r.Ok? ==> CountOf(r.value) == 0
  {
    if text == "" { return Ok([]); }
    if Includes(text, '{') || Includes(text, '}') { return Bad(SyntaxInvalid); }
    assert Leading(text)[1..] == [] && [TextPart(text)] + [] == [TextPart(text)];
    r := Ok([TextPart(text)]);
  }

  lemma ChopNext(s: string, i: nat, j: nat)
    requires NextMatch(s) == Some((i, j))
    ensures Chop(s) == Leading(s[..i]) + [Braced(s[i + 2..j])] + Chop(s[j + 2..])
  {
  }

  /**
   The scanning loop. The closing test for `{{` without an expression is left out: PlainSource shows it never fires.
   */
  method Scan(source: string, options: Options) returns (r: Result<Parsed>)
    ensures r == Parse(source, options)
  {
    var parts: seq<Part> := [];
    var expressionCount := 0;
    var rest, m := source, NextMatch(source);
    ghost var all := ReadPieces(Chop(source), 0, options);
    ghost var left := all;
    PrependNone(all);
    while m.Some?
      invariant m == NextMatch(rest)
      invariant expressionCount == CountOf(parts)
      invariant left == ReadPieces(Chop(rest), expressionCount, options)
      invariant all == Prepend(parts, left)
      decreases |rest|
    {
      var (i, j) := m.value;
      var next := ScanNext(rest[..i], rest[i + 2..j], Chop(rest[j + 2..]), expressionCount, options);
      ChopNext(rest, i, j);
      if next.Bad? { return Bad(next.error); }
      CountAppend(parts, next.value);
      left := ReadPieces(Chop(rest[j + 2..]), expressionCount + 1, options);
      PrependTwice(parts, next.value, left);
      parts, expressionCount, rest := parts + next.value, expressionCount + 1, rest[j + 2..];
      m := NextMatch(rest);
    }
    var tail := ScanTail(rest, expressionCount, options);
    if tail.Bad? { return Bad(tail.error); }
    CountAppend(parts, tail.value);
    parts := parts + tail.value;
    r := Ok(Parsed(source, parts, expressionCount, |parts| == 1 && parts[0].Expression?));
  }
}
