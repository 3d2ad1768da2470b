/** What the template parser accepts, and what it makes of it. */
module TemplateLaws {
  import opened Text
  import opened Templates

  // ----- cutting at the delimiters

  function Unchop(pieces: seq<Piece>): string {
    if pieces == [] then ""
    else (if pieces[0].Plain? then pieces[0].text else "{{" + pieces[0].inner + "}}") + Unchop(pieces[1..])
  }

  /** Nothing doubled, not even when the same character follows. */
  predicate Single(s: string, c: char) {
    !Includes(s, c) && (s != "" ==> s[|s| - 1] != c)
  }

  /** Pieces that are found again after they are joined. */
  predicate Apart(pieces: seq<Piece>) {
    pieces != [] ==>
      && Apart(pieces[1..])
      && match pieces[0]
         case Braced(inner) => Single(inner, '}')
         case Plain(text) =>
           text != "" && if |pieces| == 1 then NextMatch(text).None? else pieces[1].Braced? && Single(text, '{')
  }

  lemma FindIs(s: string, c: char, from: nat, k: nat)
    requires from <= k && DoubleAt(s, c, k) && forall j | from <= j < k :: !DoubleAt(s, c, j)
    ensures FindDouble(s, c, from) == k
  {
  }

  /** A stretch with nothing doubled, before a doubled character. */
  lemma FindPast(s: string, c: char, from: nat, k: nat)
    requires from <= k && DoubleAt(s, c, k) && Single(s[from..k], c)
    ensures FindDouble(s, c, from) == k
  {
    var t := s[from..k];
    forall j | from <= j < k
      ensures !DoubleAt(s, c, j)
    {
      assert !DoubleAt(t, c, j - from);
    }
    FindIs(s, c, from, k);
  }

  lemma SingleBefore(s: string, c: char, from: nat)
    requires from <= |s| && FindDouble(s, c, from) < |s|
    ensures Single(s[from..FindDouble(s, c, from)], c)
  {
    var i := FindDouble(s, c, from);
    var t := s[from..i];
    forall j | 0 <= j < |t|
      ensures !DoubleAt(t, c, j)
    {
      assert !DoubleAt(s, c, from + j);
    }
    assert t != "" ==> !DoubleAt(s, c, i - 1);
  }

  /** A braced `inner` between `text` and `rest`. */
  predicate Around(s: string, text: string, inner: string, rest: string) {
    var i, j := |text|, |text| + 2 + |inner|;
    && |s| == j + 2 + |rest|
    && s[..i] == text && DoubleAt(s, '{', i) && s[i + 2..j] == inner && DoubleAt(s, '}', j) && s[j + 2..] == rest
  }

  lemma AroundOf(text: string, inner: string, rest: string)
    ensures Around(text + ("{{" + inner + "}}" + rest), text, inner, rest)
  {
  }

  lemma AroundFirst(inner: string, rest: string)
    ensures Around("{{" + inner + "}}" + rest, "", inner, rest)
  {
  }

  lemma MatchOf(s: string, text: string, inner: string, rest: string)
    requires Around(s, text, inner, rest) && Single(text, '{') && Single(inner, '}')
    ensures NextMatch(s) == Some((|text|, |text| + 2 + |inner|))
  {
    assert s[0..|text|] == s[..|text|];
    FindPast(s, '{', 0, |text|);
    FindPast(s, '}', |text| + 2, |text| + 2 + |inner|);
  }

  lemma ChopAt(s: string, i: nat, j: nat, text: string, inner: string, rest: string)
    requires NextMatch(s) == Some((i, j)) && s[..i] == text && s[i + 2..j] == inner && s[j + 2..] == rest
    ensures Chop(s) == Leading(text) + [Braced(inner)] + Chop(rest)
  {
    ChopNext(s, i, j);
  }

  lemma ChopOf(s: string, text: string, inner: string, rest: string)
    requires Around(s, text, inner, rest) && Single(text, '{') && Single(inner, '}')
    ensures Chop(s) == Leading(text) + [Braced(inner)] + Chop(rest)
  {
    MatchOf(s, text, inner, rest);
    ChopAt(s, |text|, |text| + 2 + |inner|, text, inner, rest);
  }

  lemma UnchopTwo(pieces: seq<Piece>)
    requires |pieces| > 1 && pieces[0].Plain? && pieces[1].Braced?
    ensures Unchop(pieces) == pieces[0].text + ("{{" + pieces[1].inner + "}}" + Unchop(pieces[2..]))
  {
    assert pieces[1..][1..] == pieces[2..];
  }

  lemma ChopBraced(pieces: seq<Piece>)
    requires pieces != [] && pieces[0].Braced? &&
      Single(pieces[0].inner, '}') && Chop(Unchop(pieces[1..])) == pieces[1..]
    ensures Chop(Unchop(pieces)) == pieces
  {
    AroundFirst(pieces[0].inner, Unchop(pieces[1..]));
    ChopOf(Unchop(pieces), "", pieces[0].inner, Unchop(pieces[1..]));
    assert Leading("") + [pieces[0]] + pieces[1..] == pieces;
  }

  lemma ChopText(pieces: seq<Piece>)
    requires |pieces| > 1 && pieces[0].Plain? && pieces[0].text != "" && pieces[1].Braced?
    requires Single(pieces[0].text, '{') && Single(pieces[1].inner, '}') && Chop(Unchop(pieces[2..])) == pieces[2..]
    ensures Chop(Unchop(pieces)) == pieces
  {
    UnchopTwo(pieces);
    AroundOf(pieces[0].text, pieces[1].inner, Unchop(pieces[2..]));
    ChopOf(Unchop(pieces), pieces[0].text, pieces[1].inner, Unchop(pieces[2..]));
    assert Leading(pieces[0].text) + [pieces[1]] + pieces[2..] == pieces;
  }

  lemma {:induction false} ChopUnchop(pieces: seq<Piece>)
    requires Apart(pieces)
    ensures Chop(Unchop(pieces)) == pieces
  {
    if pieces == [] {
    } else if pieces[0].Braced? {
      ChopUnchop(pieces[1..]);
      ChopBraced(pieces);
    } else if |pieces| == 1 {
      assert Unchop(pieces) == pieces[0].text + "" == pieces[0].text;
    } else {
      assert pieces[1..][1..] == pieces[2..];
      ChopUnchop(pieces[2..]);
      ChopText(pieces);
    }
  }

  lemma SplitAt(s: string, i: nat, j: nat)
    requires NextMatch(s) == Some((i, j))
    ensures s == s[..i] + ("{{" + s[i + 2..j] + "}}" + s[j + 2..])
  {
    assert DoubleAt(s, '{', i) && DoubleAt(s, '}', j);
  }

  lemma CleanAt(s: string, i: nat, j: nat)
    requires NextMatch(s) == Some((i, j))
    ensures Single(s[..i], '{') && Single(s[i + 2..j], '}')
  {
    SingleBefore(s, '{', 0);
    SingleBefore(s, '}', i + 2);
    assert s[0..i] == s[..i];
  }

  lemma JoinPieces(text: string, inner: string, rest: seq<Piece>)
    requires Single(text, '{') && Single(inner, '}') && Apart(rest)
    ensures var pieces := Leading(text) + [Braced(inner)] + rest;
      Apart(pieces) && Unchop(pieces) == text + ("{{" + inner + "}}" + Unchop(rest))
  {
    var tail := [Braced(inner)] + rest;
    assert tail[1..] == rest;
    if text == "" {
      assert Leading(text) + [Braced(inner)] + rest == tail && text + Unchop(tail) == Unchop(tail);
    } else {
      var pieces := [Plain(text)] + tail;
      assert Leading(text) + [Braced(inner)] + rest == pieces && pieces[1..] == tail;
    }
  }

  lemma {:induction false} UnchopChop(s: string)
    ensures Apart(Chop(s)) && Unchop(Chop(s)) == s
    decreases |s|
  {
    var m := NextMatch(s);
    if m.None? {
      if s != "" { assert Leading(s)[1..] == [] && s + "" == s; }
    } else {
      var (i, j) := m.value;
      UnchopChop(s[j + 2..]);
      ChopNext(s, i, j);
      SplitAt(s, i, j);
      CleanAt(s, i, j);
      JoinPieces(s[..i], s[i + 2..j], Chop(s[j + 2..]));
    }
  }

  // ----- the parts of a template

  /** The pieces spell the parts: the same text, and the same paths up to white space around them. */
  predicate Spells(pieces: seq<Piece>, parts: seq<Part>) {
    |pieces| == |parts| && forall i | 0 <= i < |parts| :: SpellsPart(pieces[i], parts[i])
  }

  predicate SpellsPart(piece: Piece, part: Part) {
    match part
    case TextPart(text) => piece == Plain(text)
    case Expression(path) => piece.Braced? && Trim(piece.inner) == path.raw
  }

  /** The parts written out again, with nothing around the paths. */
  function Pieces(parts: seq<Part>): (pieces: seq<Piece>)
    ensures |pieces| == |parts|
  {
    seq(|parts|, i requires 0 <= i < |parts| => if parts[i].TextPart? then Plain(parts[i].value)
        else Braced(parts[i].path.raw))
  }

  function Print(parts: seq<Part>): string {
    Unchop(Pieces(parts))
  }

  predicate PathsOk(parts: seq<Part>, options: Options) {
    forall i | 0 <= i < |parts| && parts[i].Expression? :: PathOf(parts[i].path.raw, options) == Ok(parts[i].path)
  }

  predicate TailOk(parts: seq<Part>) {
    parts != [] && parts[|parts| - 1].TextPart? ==>
      var text := parts[|parts| - 1].value; !Includes(text, '{') && !Includes(text, '}')
  }

  predicate CountOk(parts: seq<Part>, count: nat, options: Options) {
    CountOf(parts) == 0 || count + CountOf(parts) <= options.maxInterpolations
  }

  lemma PrependIs(part: Part, rest: Result<seq<Part>>, parts: seq<Part>)
    ensures Prepend([part], rest) == Ok(parts) <==> parts != [] && parts[0] == part && rest == Ok(parts[1..])
  {
    if rest.Ok? { assert ([part] + rest.value)[1..] == rest.value; }
    if parts != [] { assert [parts[0]] + parts[1..] == parts; }
  }

  lemma ReadText(pieces: seq<Piece>, parts: seq<Part>, count: nat, options: Options)
    requires pieces != [] && pieces[0].Plain?
    ensures ReadPieces(pieces, count, options) == Ok(parts) <==>
      && parts != [] && parts[0] == TextPart(pieces[0].text) &&
          ReadPieces(pieces[1..], count, options) == Ok(parts[1..])
      && (|pieces| == 1 ==> !Includes(pieces[0].text, '{') && !Includes(pieces[0].text, '}'))
  {
    PrependIs(TextPart(pieces[0].text), ReadPieces(pieces[1..], count, options), parts);
  }

  lemma ReadExpression(pieces: seq<Piece>, parts: seq<Part>, count: nat, options: Options)
    requires pieces != [] && pieces[0].Braced?
    ensures ReadPieces(pieces, count, options) == Ok(parts) <==>
      && parts != [] && parts[0].Expression? && count < options.maxInterpolations
      && PathOf(Trim(pieces[0].inner), options) == Ok(parts[0].path) &&
          ReadPieces(pieces[1..], count + 1, options) == Ok(parts[1..])
  {
    var path := ReadInner(pieces[0].inner, count, options);
    if path.Ok? { PrependIs(Expression(path.value), ReadPieces(pieces[1..], count + 1, options), parts); }
  }

  /** Reading succeeds exactly on spellings of acceptable parts. */
  lemma {:induction false} ReadIsExact(pieces: seq<Piece>, parts: seq<Part>, count: nat, options: Options)
    ensures ReadPieces(pieces, count, options) == Ok(parts) <==>
      Spells(pieces, parts) && PathsOk(parts, options) && TailOk(parts) && CountOk(parts, count, options)
  {
    if pieces != [] && pieces[0].Plain? {
      ReadText(pieces, parts, count, options);
    } else if pieces != [] {
      ReadExpression(pieces, parts, count, options);
    }
    if pieces != [] && parts != [] {
      ReadIsExact(pieces[1..], parts[1..], if pieces[0].Plain? then count else count + 1, options);
      SpellsRest(pieces, parts);
      PathsRest(parts, options);
    }
  }

  lemma SpellsRest(pieces: seq<Piece>, parts: seq<Part>)
    requires pieces != [] && parts != []
    ensures Spells(pieces, parts) <==> SpellsPart(pieces[0], parts[0]) && Spells(pieces[1..], parts[1..])
  {
    if SpellsPart(pieces[0], parts[0]) && Spells(pieces[1..], parts[1..]) {
      forall i | 0 <= i < |parts|
        ensures SpellsPart(pieces[i], parts[i])
      {
        assert i > 0 ==> SpellsPart(pieces[1..][i - 1], parts[1..][i - 1]);
      }
    }
  }

  lemma PathsRest(parts: seq<Part>, options: Options)
    requires parts != []
    ensures PathsOk(parts, options) <==>
      (parts[0].Expression? ==> PathOf(parts[0].path.raw, options) == Ok(parts[0].path)) && PathsOk(parts[1..], options)
  {
    if PathsOk(parts[1..], options) {
      assert forall i | 1 <= i < |parts| :: parts[i] == parts[1..][i - 1];
    }
  }

  // ----- what parsing means

  /** Cutting finds exactly the pieces that a text is joined from, when they are kept apart. */
  lemma ChopIsExact(s: string, pieces: seq<Piece>)
    ensures Chop(s) == pieces <==> Apart(pieces) && Unchop(pieces) == s
  {
    UnchopChop(s);
    if Apart(pieces) { ChopUnchop(pieces); }
  }

  predicate Canonical(parts: seq<Part>, options: Options) {
    Apart(Pieces(parts)) && PathsOk(parts, options) && TailOk(parts) && CountOk(parts, 0, options)
  }

  lemma {:induction false} StartAway(s: string, c: char)
    requires !IsSpace(c)
    ensures c in TrimStart(s) <==> c in s
  {
    if s != "" && IsSpace(s[0]) {
      StartAway(s[1..], c);
      assert s == [s[0]] + s[1..];
    }
  }

  lemma {:induction false} EndAway(s: string, c: char)
    requires !IsSpace(c)
    ensures c in TrimEnd(s) <==> c in s
  {
    if s != "" && IsSpace(s[|s| - 1]) {
      EndAway(s[..|s| - 1], c);
      assert s == s[..|s| - 1] + [s[|s| - 1]];
    }
  }

  /** What stands between the braces of an accepted expression has no closing brace. */
  lemma InnerIsSingle(inner: string, options: Options)
    requires PathOf(Trim(inner), options).Ok?
    ensures Single(inner, '}')
  {
    PathIsPlain(Trim(inner), options);
    assert forall c | c in Trim(inner) :: IsPlain(c);
    StartAway(inner, '}');
    EndAway(TrimStart(inner), '}');
  }

  /** Whether pieces stay apart does not depend on the white space around the paths. */
  lemma {:induction false} ApartSpelling(p: seq<Piece>, q: seq<Piece>, parts: seq<Part>, options: Options)
    requires Spells(p, parts) && Spells(q, parts) && PathsOk(parts, options) && Apart(p)
    ensures Apart(q)
  {
    if parts != [] {
      SpellsRest(p, parts);
      SpellsRest(q, parts);
      PathsRest(parts, options);
      ApartSpelling(p[1..], q[1..], parts[1..], options);
      if parts[0].Expression? {
        InnerIsSingle(q[0].inner, options);
      } else if |parts| > 1 {
        assert SpellsPart(p[1], parts[1]) && SpellsPart(q[1], parts[1]);
      }
    }
  }

  lemma PiecesSpell(parts: seq<Part>, options: Options)
    requires PathsOk(parts, options)
    ensures Spells(Pieces(parts), parts)
  {
    forall i | 0 <= i < |parts|
      ensures SpellsPart(Pieces(parts)[i], parts[i])
    {
      if parts[i].Expression? {
        PathIsPlain(parts[i].path.raw, options);
        TrimTight(parts[i].path.raw);
      }
    }
  }

  /** The language of the parser: exactly the spellings of canonical parts, each read as those parts. */
  lemma ParserIsExact(s: string, parts: seq<Part>, options: Options)
    ensures Parse(s, options) == Ok(Describe(s, parts)) <==>
      Canonical(parts, options) && exists pieces :: Spells(pieces, parts) && s == Unchop(pieces)
  {
    if Parse(s, options) == Ok(Describe(s, parts)) {
      UnchopChop(s);
      ReadIsExact(Chop(s), parts, 0, options);
      PiecesSpell(parts, options);
      ApartSpelling(Chop(s), Pieces(parts), parts, options);
    }
    if Canonical(parts, options) && exists pieces :: Spells(pieces, parts) && s == Unchop(pieces) {
      var pieces :| Spells(pieces, parts) && s == Unchop(pieces);
      PiecesSpell(parts, options);
      ApartSpelling(Pieces(parts), pieces, parts, options);
      ChopUnchop(pieces);
      ReadIsExact(pieces, parts, 0, options);
    }
  }

  /** Printing then parsing gives the parts back exactly when they are canonical. */
  lemma PrintThenParse(parts: seq<Part>, options: Options)
    ensures Parse(Print(parts), options) == Ok(Describe(Print(parts), parts)) <==> Canonical(parts, options)
  {
    ParserIsExact(Print(parts), parts, options);
    if Canonical(parts, options) {
      PiecesSpell(parts, options);
      assert Print(parts) == Unchop(Pieces(parts));
    }
  }

  /** Parsing then printing keeps the parts of every template. */
  lemma ParseThenPrint(s: string, options: Options)
    requires Parse(s, options).Ok?
    ensures var parts := Parse(s, options).value.parts;
      Canonical(parts, options) && Parse(Print(parts), options) == Ok(Describe(Print(parts), parts))
  {
    var parts := Parse(s, options).value.parts;
    ParserIsExact(s, parts, options);
    PrintThenParse(parts, options);
  }

  lemma {:induction false} ApartText(pieces: seq<Piece>, i: nat)
    requires Apart(pieces) && i < |pieces| - 1 && pieces[i].Plain?
    ensures Single(pieces[i].text, '{')
  {
    if i > 0 { ApartText(pieces[1..], i - 1); }
  }

  /** No text part of a template contains an opening delimiter. */
  lemma TextHasNoOpening(s: string, options: Options, i: nat)
    requires Parse(s, options).Ok? && i < |Parse(s, options).value.parts| && Parse(s, options).value.parts[i].TextPart?
    ensures !Includes(Parse(s, options).value.parts[i].value, '{')
  {
    var parts := Parse(s, options).value.parts;
    ParseThenPrint(s, options);
    if i < |parts| - 1 { ApartText(Pieces(parts), i); }
  }

  lemma {:induction false} AllText(parts: seq<Part>, i: nat)
    requires CountOf(parts) == 0 && i < |parts|
    ensures parts[i].TextPart?
  {
    if i > 0 { AllText(parts[1..], i - 1); }
  }

  /** A template without expressions is its own text and has neither delimiter. */
  lemma PlainSource(s: string, options: Options)
    requires Parse(s, options).Ok? && Parse(s, options).value.expressionCount == 0
    ensures !Includes(s, '{') && !Includes(s, '}')
    ensures Parse(s, options).value.parts == if s == "" then [] else [TextPart(s)]
  {
    var parts, pieces := Parse(s, options).value.parts, Chop(s);
    ReadIsExact(pieces, parts, 0, options);
    UnchopChop(s);
    forall i | 0 <= i < |parts| { AllText(parts, i); }
    if parts != [] {
      assert SpellsPart(pieces[0], parts[0]) && (|parts| > 1 ==> SpellsPart(pieces[1], parts[1]));
      assert |parts| == 1;
      assert pieces[1..] == [] && Unchop(pieces) == pieces[0].text + "" == pieces[0].text;
      assert parts == [TextPart(s)];
    }
  }

  // ----- limits

  predicate PathFits(path: Path, options: Options) {
    && |path.raw| <= options.maxExpressionLength
    && |path.segments| <= options.maxPathDepth
    && forall s | s in path.segments && IsArrayIndex(s) :: NatOf(s) <= options.maxArrayIndex
  }

  predicate Fits(parts: seq<Part>, options: Options) {
    && CountOk(parts, 0, options)
    && forall i | 0 <= i < |parts| && parts[i].Expression? :: PathFits(parts[i].path, options)
  }

  lemma {:induction false} NoFirstError(segments: seq<string>, options: Options)
    ensures FirstError(segments, options).None? <==> forall s | s in segments :: SegmentError(s, options).None?
  {
    if segments != [] { NoFirstError(segments[1..], options); }
  }

  lemma PathLimits(raw: string, first: Options, second: Options)
    requires PathOf(raw, first).Ok?
    ensures if PathFits(PathOf(raw, first).value, second) then PathOf(raw, second) == PathOf(raw, first)
      else PathOf(raw, second).Bad?
  {
    NoFirstError(Split(raw), first);
    NoFirstError(Split(raw), second);
  }

  lemma SameParts(pieces: seq<Piece>, a: seq<Part>, b: seq<Part>, first: Options, second: Options)
    requires Spells(pieces, a) && PathsOk(a, first) && Spells(pieces, b) && PathsOk(b, second)
    ensures a == b
  {
    forall i | 0 <= i < |a|
      ensures a[i] == b[i]
    {
      assert SpellsPart(pieces[i], a[i]) && SpellsPart(pieces[i], b[i]);
      if a[i].Expression? { PathLimits(a[i].path.raw, first, second); }
    }
  }

  lemma PathsFit(parts: seq<Part>, first: Options, second: Options)
    requires PathsOk(parts, first)
    ensures PathsOk(parts, second) <==>
      forall i | 0 <= i < |parts| && parts[i].Expression? :: PathFits(parts[i].path, second)
  {
    forall i | 0 <= i < |parts| && parts[i].Expression?
      ensures PathOf(parts[i].path.raw, second) == Ok(parts[i].path) <==> PathFits(parts[i].path, second)
    {
      PathLimits(parts[i].path.raw, first, second);
    }
  }

  /** Options only limit: what parses under one set parses the same under another exactly when it fits the other. */
  lemma LimitsOnly(s: string, first: Options, second: Options)
    requires Parse(s, first).Ok?
    ensures if Fits(Parse(s, first).value.parts, second) then Parse(s, second) == Parse(s, first)
      else Parse(s, second).Bad?
  {
    var parts := Parse(s, first).value.parts;
    ReadIsExact(Chop(s), parts, 0, first);
    ReadIsExact(Chop(s), parts, 0, second);
    PathsFit(parts, first, second);
    if Parse(s, second).Ok? {
      ReadIsExact(Chop(s), Parse(s, second).value.parts, 0, second);
      SameParts(Chop(s), parts, Parse(s, second).value.parts, first, second);
    }
  }
}
