/** Validation of the expressions of a step's configuration. */
module ExpressionValidator {
  import opened Text
  import opened Json
  import opened Templates
  import opened TemplateLaws

  datatype Context = Context(
    available: set<string>, current: Option<string>, allowMetadata: bool, allowConnection: bool, locals: set<string>,
        options: Options)

  datatype Code = Failed(error: Error) | NamespaceUnknown | AccessDenied | Incomplete | StepNotAvailable

  datatype Issue = Issue(code: Code, expression: string)

  const NAMESPACES := {"trigger", "workflow", "steps", "execution", "variables", "system", "timestamp", "organization",
      "connection", "metadata"}
  const LOCALS := {"item", "index", "error"}
  const ERROR_FIELDS := {"message", "category", "code", "stepKey", "executionPath", "retryable", "attempts"}
  const CONNECTION_FIELDS := {"id", "name", "type"}
  const CONNECTION_BLOCKED := {"secret", "secretValue", "password", "apiKey", "encryptedValue", "headers",
      "additionalHeaders", "authName"}
  const STEP_FIELDS := {"output", "status"}
  const TRIGGER_FIELDS := {"body", "input", "headers", "query", "method", "receivedAt", "event"}
  const EVENT_FIELDS := {"id", "schemaVersion", "type", "occurredAt", "source", "subject", "correlationId",
      "rootEventId", "causationId", "depth", "data"}

  // ----- the checks on one path

  function IssueIf(bad: bool, code: Code, path: Path): seq<Issue> {
    if bad then [Issue(code, path.raw)] else []
  }

  /** The path is `prefix` or goes on after it. */
  predicate Under(raw: string, prefix: string) {
    raw == prefix || prefix + "." <= raw
  }

  predicate KnownNamespace(namespace: string, context: Context) {
    namespace in NAMESPACES || (namespace in LOCALS && namespace in context.locals)
  }

  predicate ConnectionDenied(path: Path, context: Context) {
    || !context.allowConnection
    || !(exists f | f in CONNECTION_FIELDS :: path.raw == "connection" + "." + f)
    || exists s | s in path.segments :: s in CONNECTION_BLOCKED
  }

  function StepPathIssues(path: Path, context: Context): seq<Issue> {
    if |path.segments| < 2 then [Issue(Incomplete, path.raw)] else
    var key := path.segments[1];
    IssueIf(key !in context.available, StepNotAvailable, path) +
    IssueIf(context.current == Some(key), StepNotAvailable, path) +
    IssueIf(|path.segments| > 2 && path.segments[2] !in STEP_FIELDS, AccessDenied, path)
  }

  predicate TriggerDenied(path: Path) {
    !(exists f | f in TRIGGER_FIELDS :: Under(path.raw, "trigger" + "." + f))
  }

  predicate EventDenied(path: Path) {
    |path.segments| > 2 && path.segments[1] == "event" && path.segments[2] !in EVENT_FIELDS
  }

  function AccessIssues(path: Path, context: Context): seq<Issue>
    requires path.segments != []
  {
    var namespace := path.segments[0];
    IssueIf(namespace in LOCALS && namespace !in context.locals, AccessDenied, path) +
    IssueIf(namespace == "error" && (|path.segments| != 2 || path.segments[1] !in ERROR_FIELDS), AccessDenied, path) +
    IssueIf(namespace == "metadata" && !context.allowMetadata, AccessDenied, path) +
    IssueIf(namespace == "connection" && ConnectionDenied(path, context), AccessDenied, path)
  }

  function LengthIssues(path: Path): seq<Issue>
    requires path.segments != []
  {
    var namespace := path.segments[0];
    IssueIf(namespace == "variables" && |path.segments| < 2, Incomplete, path) +
    IssueIf(namespace == "system" && |path.segments| < 2, Incomplete, path) +
    IssueIf(namespace == "timestamp" && |path.segments| > 1, AccessDenied, path)
  }

  function TriggerIssues(path: Path): seq<Issue>
    requires path.segments != []
  {
    IssueIf(path.segments[0] == "trigger" && TriggerDenied(path), AccessDenied, path) +
    IssueIf(path.segments[0] == "trigger" && EventDenied(path), AccessDenied, path)
  }

  function NamespaceIssues(path: Path, context: Context): seq<Issue>
    requires path.segments != []
  {
    AccessIssues(path, context) + (if path.segments[0] == "steps" then StepPathIssues(path, context) else []) +
    LengthIssues(path) + TriggerIssues(path)
  }

  function PathIssues(path: Path, context: Context): seq<Issue>
    requires path.segments != []
  {
    if !KnownNamespace(path.segments[0], context) then [Issue(NamespaceUnknown, path.raw)]
        else NamespaceIssues(path, context)
  }

  // ----- strings and values

  predicate Rooted(parts: seq<Part>) {
    forall part | part in parts && part.Expression? :: part.path.segments != []
  }

  function PartIssues(parts: seq<Part>, context: Context): seq<Issue>
    requires Rooted(parts)
  {
    if parts == [] then [] else
    (if parts[0].TextPart? then [] else assert parts[0] in parts; PathIssues(parts[0].path, context)) +
        PartIssues(parts[1..], context)
  }

  /** Parsed paths have a first segment. */
  lemma ParsedIsRooted(s: string, options: Options)
    requires Parse(s, options).Ok?
    ensures Rooted(Parse(s, options).value.parts) && PathsOk(Parse(s, options).value.parts, options)
  {
    ParseThenPrint(s, options);
  }

  function StringIssues(s: string, context: Context): seq<Issue> {
    var parsed := Parse(s, context.options);
    if parsed.Bad? then [Issue(Failed(parsed.error), s)]
    else ParsedIsRooted(s, context.options); PartIssues(parsed.value.parts, context)
  }

  lemma NextPart(parts: seq<Part>, i: nat, context: Context)
    requires i < |parts| && Rooted(parts)
    ensures Rooted(parts[i..]) && Rooted(parts[i + 1..]) && (parts[i].Expression? ==> parts[i].path.segments != [])
    ensures PartIssues(parts[i..], context) ==
      (if parts[i].TextPart? then [] else PathIssues(parts[i].path, context)) + PartIssues(parts[i + 1..], context)
  {
    assert parts[i] in parts && parts[i..][1..] == parts[i + 1..];
  }

  /** The loop over the parts of a template. */
  method ValidateParts(parts: seq<Part>, context: Context) returns (issues: seq<Issue>)
    requires Rooted(parts)
    ensures issues == PartIssues(parts, context)
  {
    issues := [];
    assert parts[0..] == parts;
    ghost var all := PartIssues(parts, context);
    for i := 0 to |parts|
      invariant Rooted(parts[i..]) && all == issues + PartIssues(parts[i..], context)
    {
      NextPart(parts, i, context);
      var more := if parts[i].TextPart? then [] else PathIssues(parts[i].path, context);
      JoinThree(issues, more, PartIssues(parts[i + 1..], context));
      issues := issues + more;
    }
  }

  method ValidateExpressionString(s: string, context: Context) returns (valid: bool, issues: seq<Issue>)
    ensures issues == StringIssues(s, context) && valid == (issues == [])
  {
    var parsed := Scan(s, context.options);
    if parsed.Bad? { return false, [Issue(Failed(parsed.error), s)]; }
    ParsedIsRooted(s, context.options);
    issues := ValidateParts(parsed.value.parts, context);
    valid := issues == [];
  }

  function ValueIssues(v: Json, context: Context): seq<Issue>
    decreases v
  {
    match v
    case Str(s) => if Includes(s, '{') then StringIssues(s, context) else []
    case Arr(items) => ItemIssues(items, context)
    case Obj(fields) => FieldIssues(fields, context)
    case _ => []
  }

  function ItemIssues(items: seq<Json>, context: Context): seq<Issue>
    decreases items
  {
    if items == [] then [] else ValueIssues(items[0], context) + ItemIssues(items[1..], context)
  }

  function FieldIssues(fields: seq<Field>, context: Context): seq<Issue>
    decreases fields
  {
    if fields == [] then [] else ValueIssues(fields[0].value, context) + FieldIssues(fields[1..], context)
  }

  /** The visitor that gathers the issues of every string. */
  class Collector {
    const context: Context
    var issues: seq<Issue>

    constructor (context: Context)
      ensures this.context == context && issues == []
    {
      this.context := context;
      issues := [];
    }

    method Visit(v: Json)
      modifies this
      ensures issues == old(issues) + ValueIssues(v, context)
      decreases v
    {
      match v
      case Str(s) =>
        if !Includes(s, '{') { return; }
        var valid, more := ValidateExpressionString(s, context);
        issues := issues + more;
      case Arr(items) =>
        assert items[0..] == items;
        for i := 0 to |items|
          invariant issues + ItemIssues(items[i..], context) == old(issues) + ItemIssues(items, context)
        {
          assert items[i..][1..] == items[i + 1..];
          JoinThree(issues, ValueIssues(items[i], context), ItemIssues(items[i + 1..], context));
          Visit(items[i]);
        }
      case Obj(fields) =>
        assert fields[0..] == fields;
        for i := 0 to |fields|
          invariant issues + FieldIssues(fields[i..], context) == old(issues) + FieldIssues(fields, context)
        {
          assert fields[i..][1..] == fields[i + 1..];
          JoinThree(issues, ValueIssues(fields[i].value, context), FieldIssues(fields[i + 1..], context));
          Visit(fields[i].value);
        }
      case _ =>
    }
  }

  method ValidateExpressionsInValue(v: Json, context: Context) returns (valid: bool, issues: seq<Issue>)
    ensures issues == ValueIssues(v, context) && valid == (issues == [])
  {
    var collector := new Collector(context);
    collector.Visit(v);
    issues := collector.issues;
    valid := issues == [];
  }
}
