/** What validated expressions may read, and what resolving them depends on. */
module ExpressionTheorems {
  import opened Text
  import opened Json
  import opened Templates
  import opened TemplateLaws
  import opened Resolver
  import opened ResolverLaws
  import opened ExpressionValidator

  // ----- dotted paths

  predicate DotFree(s: string) {
    '.' !in s
  }

  lemma {:induction false} SplitFirst(a: string, b: string)
    requires DotFree(a)
    ensures Split(a + "." + b) == [a] + Split(b)
  {
    var s := a + "." + b;
    if a == "" {
      assert s[1..] == b;
    } else {
      SplitFirst(a[1..], b);
      assert s[1..] == a[1..] + "." + b;
      assert ([a[1..]] + Split(b))[1..] == Split(b) && [a[0]] + a[1..] == a;
    }
  }

  lemma {:induction false} SplitWord(a: string)
    requires DotFree(a)
    ensures Split(a) == [a]
  {
    if a != "" {
      SplitWord(a[1..]);
      assert [a[0]] + a[1..] == a;
    }
  }

  /** Splitting takes joined segments apart again. */
  lemma {:induction false} SplitJoin(segments: seq<string>)
    requires segments != [] && forall s | s in segments :: DotFree(s)
    ensures Split(Join(segments)) == segments
  {
    assert segments[0] in segments;
    if |segments| == 1 {
      SplitWord(segments[0]);
    } else {
      SplitJoin(segments[1..]);
      SplitFirst(segments[0], Join(segments[1..]));
      assert [segments[0]] + segments[1..] == segments;
    }
  }

  /**
   Letters, digits and underscores, not starting with a digit: no hyphen, which the parser refuses before it looks at
   segments.
   */
  predicate IsWord(s: string) {
    s != "" && IsWordStart(s[0]) && forall i | 0 <= i < |s| :: IsWordStart(s[i]) || IsDigit(s[i])
  }

  predicate SegmentOk(s: string, options: Options) {
    s !in FORBIDDEN && (IsWord(s) || (IsArrayIndex(s) && NatOf(s) <= options.maxArrayIndex))
  }

  lemma SupportedChar(c: char)
    ensures IsWordStart(c) || IsDigit(c) || c == '.' ==> c !in UNSUPPORTED
    ensures '-' in UNSUPPORTED
  {
    assert UNSUPPORTED[9] == '-';
  }

  lemma {:induction false} JoinChars(segments: seq<string>, s: string, c: char)
    requires s in segments && c in s
    ensures c in Join(segments)
  {
    if |segments| > 1 && s != segments[0] { JoinChars(segments[1..], s, c); }
  }

  lemma {:induction false} CharsOfJoin(segments: seq<string>, c: char) returns (s: string)
    requires segments != [] && c in Join(segments) && c != '.'
    ensures s in segments && c in s
  {
    s := segments[0];
    if |segments| > 1 && c !in segments[0] {
      s := CharsOfJoin(segments[1..], c);
    }
  }

  lemma WordsAreSupported(segments: seq<string>, options: Options)
    requires segments != [] && forall s | s in segments :: SegmentOk(s, options)
    ensures forall i | 0 <= i < |Join(segments)| :: Join(segments)[i] !in UNSUPPORTED
  {
    forall i | 0 <= i < |Join(segments)|
      ensures Join(segments)[i] !in UNSUPPORTED
    {
      var c := Join(segments)[i];
      SupportedChar(c);
      if c != '.' {
        var s := CharsOfJoin(segments, c);
      }
    }
  }

  lemma SupportedIsWord(segments: seq<string>, s: string, options: Options)
    requires s in segments && SegmentError(s, options).None? &&
      forall i | 0 <= i < |Join(segments)| :: Join(segments)[i] !in UNSUPPORTED
    ensures SegmentOk(s, options)
  {
    SupportedChar('-');
    if '-' in s {
      JoinChars(segments, s, '-');
      assert false;
    }
  }

  /** The paths the parser accepts: short enough, and made of words and small indices. */
  lemma PathLanguage(segments: seq<string>, options: Options)
    requires segments != [] && forall s | s in segments :: DotFree(s)
    ensures PathOf(Join(segments), options) == Ok(Path(Join(segments), segments)) <==>
      && (forall s | s in segments :: SegmentOk(s, options))
      && |Join(segments)| <= options.maxExpressionLength && |segments| <= options.maxPathDepth
  {
    SplitJoin(segments);
    NoFirstError(segments, options);
    if forall s | s in segments :: SegmentOk(s, options) {
      WordsAreSupported(segments, options);
      NotEmpty(segments, options);
    }
    if PathOf(Join(segments), options).Ok? {
      forall s | s in segments { SupportedIsWord(segments, s, options); }
    }
  }

  /** A forbidden name, behind segments without an error. */
  predicate FirstForbidden(segments: seq<string>, i: nat, options: Options) {
    i < |segments| && segments[i] in FORBIDDEN && forall j | 0 <= j < i :: SegmentError(segments[j], options).None?
  }

  lemma {:induction false} FirstErrorForbidden(segments: seq<string>, options: Options)
    ensures FirstError(segments, options) == Some(SegmentForbidden) <==>
      exists i: nat :: FirstForbidden(segments, i, options)
  {
    if segments != [] {
      var rest := segments[1..];
      FirstErrorForbidden(rest, options);
      if FirstError(segments, options) == Some(SegmentForbidden) {
        if segments[0] in FORBIDDEN {
          assert FirstForbidden(segments, 0, options);
        } else {
          var i: nat :| FirstForbidden(rest, i, options);
          assert FirstForbidden(segments, i + 1, options);
        }
      }
      if i: nat :| FirstForbidden(segments, i, options) && i > 0 {
        assert FirstForbidden(rest, i - 1, options);
      }
    }
  }

  /** A path is refused as forbidden exactly when its shape is fine and its first bad segment is a forbidden name. */
  lemma ForbiddenExactly(segments: seq<string>, options: Options)
    requires segments != [] && forall s | s in segments :: DotFree(s)
    ensures PathOf(Join(segments), options) == Bad(SegmentForbidden) <==>
      && |Join(segments)| <= options.maxExpressionLength && |segments| <= options.maxPathDepth && "" !in segments
      && (forall i | 0 <= i < |Join(segments)| :: Join(segments)[i] !in UNSUPPORTED)
      && exists i: nat :: FirstForbidden(segments, i, options)
  {
    SplitJoin(segments);
    FirstErrorForbidden(segments, options);
    if Join(segments) == "" { assert segments[0] == ""; }
  }

  lemma NotEmpty(segments: seq<string>, options: Options)
    requires segments != [] && forall s | s in segments :: SegmentOk(s, options)
    ensures Join(segments) != "" && "" !in segments && forall s | s in segments :: SegmentError(s, options).None?
  {
    assert segments[0] in segments;
  }

  /** A prefix of two segments is seen in the text of a path exactly when it is seen in its segments. */
  lemma UnderTwo(raw: string, a: string, b: string)
    requires DotFree(a) && DotFree(b)
    ensures Under(raw, a + "." + b) <==> var s := Split(raw); |s| > 1 && s[0] == a && s[1] == b
  {
    var segments := Split(raw);
    if Under(raw, a + "." + b) { SplitUnder(raw, a, b); }
    if |segments| > 1 && segments[0] == a && segments[1] == b {
      JoinSplit(raw);
      assert segments[1..][0] == b && segments[1..][1..] == segments[2..];
      if |segments| > 2 {
        assert raw == a + "." + (b + "." + Join(segments[2..])) == a + "." + b + "." + Join(segments[2..]);
      }
    }
  }

  lemma SplitUnder(raw: string, a: string, b: string)
    requires DotFree(a) && DotFree(b) && Under(raw, a + "." + b)
    ensures var s := Split(raw); |s| > 1 && s[0] == a && s[1] == b
  {
    SplitWord(b);
    if raw == a + "." + b {
      SplitFirst(a, b);
    } else {
      var rest := raw[|a + "." + b + "."|..];
      assert raw == a + "." + b + "." + rest == a + "." + (b + "." + rest);
      SplitFirst(a, b + "." + rest);
      SplitFirst(b, rest);
    }
  }

  // ----- what a path may read

  predicate AllowedStep(segments: seq<string>, context: Context) {
    && |segments| > 1 && segments[1] in context.available && context.current != Some(segments[1])
    && (|segments| > 2 ==> segments[2] in STEP_FIELDS)
  }

  predicate AllowedTrigger(segments: seq<string>) {
    && |segments| > 1 && segments[1] in TRIGGER_FIELDS
    && (segments[1] == "event" && |segments| > 2 ==> segments[2] in EVENT_FIELDS)
  }

  predicate AllowedConnection(segments: seq<string>, context: Context) {
    context.allowConnection && |segments| == 2 && segments[1] in CONNECTION_FIELDS
  }

  predicate AllowedAccess(segments: seq<string>, context: Context)
    requires segments != []
  {
    && (segments[0] == "connection" ==> AllowedConnection(segments, context))
    && (segments[0] == "metadata" ==> context.allowMetadata)
    && (segments[0] == "error" ==> |segments| == 2 && segments[1] in ERROR_FIELDS)
  }

  predicate AllowedLength(segments: seq<string>)
    requires segments != []
  {
    && (segments[0] == "variables" ==> |segments| > 1)
    && (segments[0] == "system" ==> |segments| > 1)
    && (segments[0] == "timestamp" ==> |segments| == 1)
  }

  /** The paths the validator lets through, said on their segments. */
  predicate Allowed(segments: seq<string>, context: Context)
    requires segments != []
  {
    && (segments[0] in NAMESPACES || (segments[0] in LOCALS && segments[0] in context.locals))
    && AllowedAccess(segments, context)
    && (segments[0] == "steps" ==> AllowedStep(segments, context))
    && AllowedLength(segments)
    && (segments[0] == "trigger" ==> AllowedTrigger(segments))
  }

  lemma TriggerExact(path: Path)
    requires path.segments == Split(path.raw) && path.segments[0] == "trigger"
    ensures !TriggerDenied(path) && !EventDenied(path) <==> AllowedTrigger(path.segments)
  {
    forall f | f in TRIGGER_FIELDS
      ensures Under(path.raw, "trigger" + "." + f) <==> |path.segments| > 1 && path.segments[1] == f
    {
      UnderTwo(path.raw, "trigger", f);
    }
  }

  lemma ConnectionPath(path: Path, f: string)
    requires path.segments == Split(path.raw) && DotFree(f)
    ensures path.raw == "connection" + "." + f <==> path.segments == ["connection", f]
  {
    SplitFirst("connection", f);
    SplitWord(f);
    JoinSplit(path.raw);
    assert ["connection", f][1..] == [f];
  }

  lemma FieldsNotBlocked(f: string)
    ensures f in CONNECTION_FIELDS ==> f !in CONNECTION_BLOCKED && "connection" !in CONNECTION_BLOCKED && DotFree(f)
  {
    assert f in CONNECTION_FIELDS ==> |f| <= 4;
    assert f in CONNECTION_BLOCKED ==> |f| > 5;
    assert "connection"[0] == 'c';
  }

  /** The list of blocked names under `connection` refuses nothing that the list of allowed paths lets through. */
  lemma ConnectionExact(path: Path, context: Context)
    requires path.segments == Split(path.raw) && path.segments[0] == "connection"
    ensures !ConnectionDenied(path, context) <==> AllowedConnection(path.segments, context)
  {
    forall f | f in CONNECTION_FIELDS
      ensures path.raw == "connection" + "." + f <==> path.segments == ["connection", f]
    {
      FieldsNotBlocked(f);
      ConnectionPath(path, f);
    }
    if |path.segments| == 2 {
      assert path.segments == ["connection", path.segments[1]];
      FieldsNotBlocked(path.segments[1]);
    }
  }

  lemma StepExact(path: Path, context: Context)
    ensures StepPathIssues(path, context) == [] <==> AllowedStep(path.segments, context)
  {
  }

  lemma LocalsApart(namespace: string)
    ensures namespace in LOCALS ==> namespace !in NAMESPACES
  {
    assert namespace in NAMESPACES ==> |namespace| > 5 || namespace[0] == 's';
    assert namespace in LOCALS ==> |namespace| <= 5 && namespace[0] != 's';
  }

  /** For a known namespace, the second test of the local names never fires. */
  lemma AccessExact(path: Path, context: Context)
    requires path.segments == Split(path.raw) && KnownNamespace(path.segments[0], context)
    ensures AccessIssues(path, context) == [] <==> AllowedAccess(path.segments, context)
  {
    LocalsApart(path.segments[0]);
    if path.segments[0] == "connection" { ConnectionExact(path, context); }
  }

  lemma LengthExact(path: Path)
    requires path.segments != []
    ensures LengthIssues(path) == [] <==> AllowedLength(path.segments)
  {
  }

  lemma NoneOf(a: seq<Issue>, b: seq<Issue>, c: seq<Issue>, d: seq<Issue>)
    ensures a + b + c + d == [] <==> a == [] && b == [] && c == [] && d == []
  {
  }

  /** A path draws no issue exactly when it is allowed. */
  lemma PathExact(path: Path, context: Context)
    requires path.segments == Split(path.raw)
    ensures PathIssues(path, context) == [] <==> Allowed(path.segments, context)
  {
    if KnownNamespace(path.segments[0], context) {
      AccessExact(path, context);
      LengthExact(path);
      StepExact(path, context);
      if path.segments[0] == "trigger" { TriggerExact(path); }
      NoneOf(AccessIssues(path, context),
          if path.segments[0] == "steps" then StepPathIssues(path, context) else [],
          LengthIssues(path), TriggerIssues(path));
    }
  }

  /** The names that start a path. */
  predicate Known(namespace: string, context: Context) {
    namespace in NAMESPACES || (namespace in LOCALS && namespace in context.locals)
  }

  /** A segment says too much: the path is refused for what it reads, not for being short. */
  predicate Denied(segments: seq<string>, context: Context)
    requires segments != []
  {
    || !AllowedAccess(segments, context)
    || (segments[0] == "steps" && |segments| > 2 && segments[2] !in STEP_FIELDS)
    || (segments[0] == "timestamp" && |segments| > 1)
    || (segments[0] == "trigger" && !AllowedTrigger(segments))
  }

  predicate Tells(issues: seq<Issue>, raw: string, unknown: bool, incomplete: bool, unavailable: bool, denied: bool) {
    && (Issue(NamespaceUnknown, raw) in issues <==> unknown)
    && (Issue(Incomplete, raw) in issues <==> incomplete)
    && (Issue(StepNotAvailable, raw) in issues <==> unavailable)
    && (Issue(AccessDenied, raw) in issues <==> denied)
    && forall x | x in issues :: x.expression == raw && !x.code.Failed?
  }

  lemma AccessTells(path: Path, context: Context)
    requires path.segments == Split(path.raw) && KnownNamespace(path.segments[0], context)
    ensures Tells(AccessIssues(path, context), path.raw, false, false, false, !AllowedAccess(path.segments, context))
  {
    AccessExact(path, context);
  }

  lemma StepTells(path: Path, context: Context)
    ensures var s := path.segments;
      Tells(StepPathIssues(path, context), path.raw, false, |s| < 2,
        |s| > 1 && (s[1] !in context.available || context.current == Some(s[1])), |s| > 2 && s[2] !in STEP_FIELDS)
  {
  }

  lemma LengthTells(path: Path)
    requires path.segments != []
    ensures var s := path.segments;
      Tells(LengthIssues(path), path.raw, false, |s| < 2 && s[0] in {"variables", "system"}, false,
        |s| > 1 && s[0] == "timestamp")
  {
  }

  lemma TriggerTells(path: Path)
    requires path.segments == Split(path.raw)
    ensures var s := path.segments;
      Tells(TriggerIssues(path), path.raw, false, false, false, s[0] == "trigger" && !AllowedTrigger(s))
  {
    if path.segments[0] == "trigger" { TriggerExact(path); }
  }

  /** Which issues a path draws: the code of each says what is wrong with the path. */
  lemma CodesTell(path: Path, context: Context)
    requires path.segments == Split(path.raw)
    ensures var s, known := path.segments, Known(path.segments[0], context);
      Tells(PathIssues(path, context), path.raw, !known, |s| == 1 && s[0] in {"steps", "variables", "system"},
        |s| > 1 && s[0] == "steps" && (s[1] !in context.available || context.current == Some(s[1])),
        known && Denied(s, context))
  {
    var s := path.segments;
    assert {"steps", "variables", "system"} <= NAMESPACES;
    if KnownNamespace(s[0], context) {
      AccessTells(path, context);
      StepTells(path, context);
      LengthTells(path);
      TriggerTells(path);
    }
  }

  lemma StepAllowed(segments: seq<string>, k: string, context: Context)
    requires segments == ["steps", k, "output"]
    ensures Allowed(segments, context) <==> k in context.available && context.current != Some(k)
  {
    assert "steps"[0] == 's' && "steps"[1] == 't';
    assert "output" in STEP_FIELDS && "steps" in NAMESPACES;
  }

  /** Local names are readable exactly where they are local; of an error, exactly its fields. */
  lemma LocalsExact(rest: seq<string>, context: Context)
    ensures Allowed(["item"] + rest, context) <==> "item" in context.locals
    ensures Allowed(["index"] + rest, context) <==> "index" in context.locals
    ensures Allowed(["error"] + rest, context) <==>
      "error" in context.locals && |rest| == 1 && rest[0] in ERROR_FIELDS
  {
    LocalsApart("item");
    LocalsApart("index");
    LocalsApart("error");
    assert (["error"] + rest)[1..] == rest;
    assert "item"[1] == 't' && "index"[1] == 'n' && "error"[1] == 'r';
  }

  // ----- what a validated value may read

  predicate AllowedParts(parts: seq<Part>, context: Context) {
    forall part | part in parts && part.Expression? :: part.path.segments != [] && Allowed(part.path.segments, context)
  }

  predicate AllowedString(s: string, context: Context) {
    Includes(s, '{') ==> Parse(s, context.options).Ok? && AllowedParts(Parse(s, context.options).value.parts, context)
  }

  predicate Accepted(v: Json, context: Context) {
    EveryString(v, (s: string) => AllowedString(s, context))
  }

  lemma AllowedFirst(parts: seq<Part>, context: Context)
    requires parts != []
    ensures AllowedParts(parts, context) <==> AllowedParts([parts[0]], context) && AllowedParts(parts[1..], context)
  {
    assert parts == [parts[0]] + parts[1..];
  }

  lemma OnePartExact(part: Part, context: Context)
    requires part.Expression? ==> PathOf(part.path.raw, context.options) == Ok(part.path)
    ensures part.Expression? ==>
      part.path.segments != [] && (PathIssues(part.path, context) == [] <==> AllowedParts([part], context))
    ensures part.TextPart? ==> AllowedParts([part], context)
  {
    if part.Expression? { PathExact(part.path, context); }
  }

  lemma {:induction false} PartsExact(parts: seq<Part>, context: Context)
    requires Rooted(parts) && PathsOk(parts, context.options)
    ensures PartIssues(parts, context) == [] <==> AllowedParts(parts, context)
  {
    if parts != [] {
      PathsRest(parts, context.options);
      PartsExact(parts[1..], context);
      OnePartExact(parts[0], context);
      AllowedFirst(parts, context);
    }
  }

  lemma StringExact(s: string, context: Context)
    ensures StringIssues(s, context) == [] <==>
      Parse(s, context.options).Ok? && AllowedParts(Parse(s, context.options).value.parts, context)
  {
    if Parse(s, context.options).Ok? {
      ParsedIsRooted(s, context.options);
      PartsExact(Parse(s, context.options).value.parts, context);
    }
  }

  /** The validator passes a value exactly when each of its templates parses and reads only what is allowed. */
  lemma {:induction false} ValueExact(v: Json, context: Context)
    ensures ValueIssues(v, context) == [] <==> Accepted(v, context)
    decreases v
  {
    match v
    case Str(s) => StringExact(s, context);
    case Arr(items) => ItemsExact(items, context);
    case Obj(fields) => FieldsExact(fields, context);
    case _ =>
  }

  lemma {:induction false} ItemsExact(items: seq<Json>, context: Context)
    ensures ItemIssues(items, context) == [] <==> forall item | item in items :: Accepted(item, context)
    decreases items
  {
    if items != [] {
      ValueExact(items[0], context);
      ItemsExact(items[1..], context);
    }
  }

  lemma {:induction false} FieldsExact(fields: seq<Field>, context: Context)
    ensures FieldIssues(fields, context) == [] <==> forall field | field in fields :: Accepted(field.value, context)
    decreases fields
  {
    if fields != [] {
      ValueExact(fields[0].value, context);
      FieldsExact(fields[1..], context);
    }
  }

  /** Where an issue comes from: a string that does not parse, or a path that some string names. */
  ghost predicate Draws(v: Json, context: Context, x: Issue)
    decreases v
  {
    match v
    case Str(s) =>
      Includes(s, '{') && (
        match Parse(s, context.options)
        case Bad(error) => x == Issue(Failed(error), s)
        case Ok(parsed) => PathDraws(parsed.parts, context, x))
    case Arr(items) => exists item | item in items :: Draws(item, context, x)
    case Obj(fields) => exists field | field in fields :: Draws(field.value, context, x)
    case _ => false
  }

  ghost predicate PathDraws(parts: seq<Part>, context: Context, x: Issue) {
    exists part | part in parts :: part.Expression? && part.path.segments != [] && x in PathIssues(part.path, context)
  }

  lemma {:induction false} PartsDraw(parts: seq<Part>, context: Context, x: Issue)
    requires Rooted(parts)
    ensures x in PartIssues(parts, context) <==> PathDraws(parts, context, x)
  {
    if parts != [] {
      assert parts[0] in parts && Rooted(parts[1..]);
      PartsDraw(parts[1..], context, x);
      assert forall part :: part in parts <==> part == parts[0] || part in parts[1..];
    }
  }

  /** Every issue of a value is drawn by one of its strings, and nothing that they draw is left out. */
  lemma {:induction false} IssuesTell(v: Json, context: Context, x: Issue)
    ensures x in ValueIssues(v, context) <==> Draws(v, context, x)
    decreases v
  {
    match v
    case Str(s) =>
      if Parse(s, context.options).Ok? {
        ParsedIsRooted(s, context.options);
        PartsDraw(Parse(s, context.options).value.parts, context, x);
      }
    case Arr(items) => ItemsDraw(items, context, x);
    case Obj(fields) => FieldsDraw(fields, context, x);
    case _ =>
  }

  lemma {:induction false} ItemsDraw(items: seq<Json>, context: Context, x: Issue)
    ensures x in ItemIssues(items, context) <==> exists item | item in items :: Draws(item, context, x)
    decreases items
  {
    if items != [] {
      IssuesTell(items[0], context, x);
      ItemsDraw(items[1..], context, x);
      assert forall item :: item in items <==> item == items[0] || item in items[1..];
    }
  }

  lemma {:induction false} FieldsDraw(fields: seq<Field>, context: Context, x: Issue)
    ensures x in FieldIssues(fields, context) <==> exists field | field in fields :: Draws(field.value, context, x)
    decreases fields
  {
    if fields != [] {
      IssuesTell(fields[0].value, context, x);
      FieldsDraw(fields[1..], context, x);
      assert forall field :: field in fields <==> field == fields[0] || field in fields[1..];
    }
  }

  /** Text without an opening delimiter has no expression, and parses unless it has a closing one. */
  lemma NoOpening(s: string, options: Options)
    requires !Includes(s, '{')
    ensures Parse(s, options).Ok? <==> !Includes(s, '}')
    ensures Parse(s, options).Ok? ==> forall part | part in Parse(s, options).value.parts :: part.TextPart?
  {
    assert NextMatch(s).None?;
    ReadIsExact(Chop(s), if s == "" then [] else [TextPart(s)], 0, options);
  }

  /** Every path of a validated value is allowed. */
  lemma {:induction false} MentionedIsAllowed(v: Json, path: Path, context: Context)
    requires Accepted(v, context) && Mentions(v, path, context.options)
    ensures path.segments != [] && Allowed(path.segments, context)
    decreases v
  {
    match v
    case Str(s) =>
      var parts := Parse(s, context.options).value.parts;
      assert Expression(path) in parts;
      if !Includes(s, '{') { NoOpening(s, context.options); }
    case Arr(items) =>
      var item :| item in items && Mentions(item, path, context.options);
      MentionedIsAllowed(item, path, context);
    case Obj(fields) =>
      var field :| field in fields && Mentions(field.value, path, context.options);
      MentionedIsAllowed(field.value, path, context);
  }

  // ----- resolving what was validated

  /** No string closes an expression that it never opens. */
  predicate NoStray(v: Json) {
    EveryString(v, (s: string) => Includes(s, '{') || !Includes(s, '}'))
  }

  /** A validated value resolves in legacy mode, in every scope, exactly when no string has `}}` without `{{`. */
  lemma ValidatedResolves(v: Json, context: Context, scope: Json, write: Writer)
    requires Accepted(v, context)
    ensures ResolveValue(v, scope, Legacy, context.options, write).Ok? <==> NoStray(v)
  {
    LegacySucceeds(v, scope, context.options, write);
    ParsesWhenClean(v, context);
  }

  lemma {:induction false} ParsesWhenClean(v: Json, context: Context)
    requires Accepted(v, context)
    ensures AllParse(v, context.options) <==> NoStray(v)
    decreases v
  {
    match v
    case Str(s) => if !Includes(s, '{') { NoOpening(s, context.options); }
    case Arr(items) =>
      forall item | item in items
        ensures AllParse(item, context.options) <==> NoStray(item)
      {
        ParsesWhenClean(item, context);
      }
    case Obj(fields) =>
      forall field | field in fields
        ensures AllParse(field.value, context.options) <==> NoStray(field.value)
      {
        ParsesWhenClean(field.value, context);
      }
    case _ =>
  }

  /** The validator passes a stray closing delimiter that resolution then refuses. */
  lemma StrayIsAccepted(context: Context, scope: Json, write: Writer)
    ensures ValueIssues(Str("}}"), context) == [] && ResolveValue(Str("}}"), scope, Legacy, context.options, write).Bad?
  {
    assert DoubleAt("}}", '}', 0) && !Includes("}}", '{');
    NoOpening("}}", context.options);
  }

  /** The scopes agree on everything but the outputs of steps that are not available. */
  ghost predicate SameAvailable(a: Json, b: Json, available: set<string>) {
    && (forall namespace | namespace != "steps" :: Member(a, namespace) == Member(b, namespace))
    && (forall key | key in available :: Lookup(a, ["steps", key]) == Lookup(b, ["steps", key]))
  }

  lemma AllowedReadsAvailable(segments: seq<string>, context: Context, a: Json, b: Json)
    requires segments != [] && (segments[0] == "steps" ==> AllowedStep(segments, context)) &&
      SameAvailable(a, b, context.available)
    ensures Lookup(a, segments) == Lookup(b, segments)
  {
    if segments[0] == "steps" {
      var front := ["steps", segments[1]];
      assert front + segments[2..] == segments;
      LookupAppend(a, front, segments[2..]);
      LookupAppend(b, front, segments[2..]);
    }
  }

  /** Resolving a validated value never depends on a step that was not available to it. */
  lemma UnavailableIsUnseen(v: Json, context: Context, a: Json, b: Json, mode: Mode, write: Writer)
    requires Accepted(v, context) && SameAvailable(a, b, context.available)
    ensures ResolveValue(v, a, mode, context.options, write) == ResolveValue(v, b, mode, context.options, write)
  {
    forall path | Mentions(v, path, context.options)
      ensures Lookup(a, path.segments) == Lookup(b, path.segments)
    {
      MentionedIsAllowed(v, path, context);
      AllowedReadsAvailable(path.segments, context, a, b);
    }
    ResolveReads(v, a, b, mode, context.options, write);
  }
}
