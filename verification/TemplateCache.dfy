/** The cache in front of the template parser. It is keyed by the source alone, whatever the options. */
module TemplateCache {
  import opened Text
  import opened Templates
  import opened TemplateLaws

  const CACHE_MAX := 500

  function IndexOf(entries: seq<Parsed>, source: string): (i: nat)
    ensures i <= |entries| && (i < |entries| ==> entries[i].source == source) &&
      forall j | 0 <= j < i :: entries[j].source != source
  {
    if entries == [] || entries[0].source == source then 0 else 1 + IndexOf(entries[1..], source)
  }

  predicate Holds(entries: seq<Parsed>, source: string) {
    IndexOf(entries, source) < |entries|
  }

  /** What a call returns. */
  function Answer(entries: seq<Parsed>, source: string, options: Options): Result<Parsed> {
    if Holds(entries, source) then Ok(entries[IndexOf(entries, source)]) else Parse(source, options)
  }

  /** Dropping the oldest entry, unless its key is the empty string. */
  function Evict(entries: seq<Parsed>): seq<Parsed> {
    if |entries| > CACHE_MAX && entries[0].source != "" then entries[1..] else entries
  }

  /** What a call leaves in the cache. */
  function After(entries: seq<Parsed>, source: string, options: Options): seq<Parsed> {
    if Holds(entries, source) || Parse(source, options).Bad? then entries
    else Evict(entries + [Parse(source, options).value])
  }

  class Cache {
    var entries: seq<Parsed>

    constructor ()
      ensures entries == []
    {
      entries := [];
    }

    method ParseTemplate(source: string, options: Options) returns (r: Result<Parsed>)
      modifies this
      ensures r == Answer(old(entries), source, options) && entries == After(old(entries), source, options)
    {
      var i := IndexOf(entries, source);
      if i < |entries| { return Ok(entries[i]); }
      r := Scan(source, options);
      if r.Bad? { return; }
      entries := entries + [r.value];
      if |entries| > CACHE_MAX {
        var first := entries[0].source;
        if first != "" { entries := entries[1..]; }
      }
    }
  }

  // ----- any run of calls

  datatype Call = Call(source: string, options: Options)

  function Run(history: seq<Call>): seq<Parsed> {
    if history == [] then [] else
    var last := history[|history| - 1];
    After(Run(history[..|history| - 1]), last.source, last.options)
  }

  predicate ParsedBy(entry: Parsed, c: Call) {
    c.source == entry.source && Parse(c.source, c.options) == Ok(entry)
  }

  /** Every entry is what some call of the history parsed. */
  ghost predicate From(entries: seq<Parsed>, history: seq<Call>) {
    forall e | e in entries :: exists c | c in history :: ParsedBy(e, c)
  }

  lemma FromMore(entries: seq<Parsed>, history: seq<Call>, last: Call)
    requires From(entries, history)
    ensures From(entries, history + [last])
  {
    forall e | e in entries
      ensures exists c | c in history + [last] :: ParsedBy(e, c)
    {
      var c :| c in history && ParsedBy(e, c);
      assert c in history + [last];
    }
  }

  lemma FromAfter(entries: seq<Parsed>, history: seq<Call>, last: Call)
    requires From(entries, history) && last in history
    ensures From(After(entries, last.source, last.options), history)
  {
    var parsed := Parse(last.source, last.options);
    if parsed.Ok? {
      assert ParsedBy(parsed.value, last);
      var all := entries + [parsed.value];
      assert From(all, history);
      assert forall e | e in Evict(all) :: e in all;
    }
  }

  lemma {:induction false} RunIsFrom(history: seq<Call>)
    ensures From(Run(history), history)
  {
    if history != [] {
      var before, last := history[..|history| - 1], history[|history| - 1];
      assert history == before + [last];
      RunIsFrom(before);
      FromMore(Run(before), before, last);
      FromAfter(Run(before), history, last);
    }
  }

  lemma EntryOrigin(history: seq<Call>, i: nat) returns (c: Call)
    requires i < |Run(history)|
    ensures c in history && ParsedBy(Run(history)[i], c)
  {
    RunIsFrom(history);
    var e := Run(history)[i];
    assert e in Run(history);
    c :| c in history && ParsedBy(e, c);
  }

  /**
   After any calls, the cache answers as a fresh parse would exactly when the entry it holds fits the options of this
   call.
   */
  lemma CacheIsFresh(history: seq<Call>, source: string, options: Options)
    ensures var entries, i := Run(history), IndexOf(Run(history), source);
      Answer(entries, source, options) == Parse(source, options) <==> i == |entries| || Fits(entries[i].parts, options)
  {
    var entries, i := Run(history), IndexOf(Run(history), source);
    if i < |entries| {
      var c := EntryOrigin(history, i);
      LimitsOnly(source, c.options, options);
    }
  }

  /** With one set of options throughout, the cache is never seen. */
  lemma SameOptionsAreFresh(history: seq<Call>, source: string, options: Options)
    requires forall c | c in history :: c.options == options
    ensures Answer(Run(history), source, options) == Parse(source, options)
  {
    if Holds(Run(history), source) { var c := EntryOrigin(history, IndexOf(Run(history), source)); }
  }

  /** Successful answers for one source are the same at any time, whatever the options. */
  lemma AnswersAgree(h1: seq<Call>, h2: seq<Call>, source: string, o1: Options, o2: Options)
    requires Answer(Run(h1), source, o1).Ok? && Answer(Run(h2), source, o2).Ok?
    ensures Answer(Run(h1), source, o1) == Answer(Run(h2), source, o2)
  {
    var c1 := Origin(h1, source, o1);
    var c2 := Origin(h2, source, o2);
    LimitsOnly(source, c1, c2);
  }

  lemma Origin(history: seq<Call>, source: string, options: Options) returns (o: Options)
    requires Answer(Run(history), source, options).Ok?
    ensures Parse(source, o) == Answer(Run(history), source, options)
  {
    var entries, i := Run(history), IndexOf(Run(history), source);
    o := options;
    if i < |entries| {
      var c := EntryOrigin(history, i);
      o := c.options;
    }
  }

  const ONE_STEP := [Expression(Path("a", ["a"]))]

  lemma OneStepPath(options: Options)
    requires options.maxExpressionLength >= 1 && options.maxPathDepth >= 1
    ensures PathOf("a", options) == Ok(Path("a", ["a"]))
  {
    assert "a"[1..] == "" && Split("") == [""] && [""][1..] == [];
    assert ['a'] + "" == "a" && ["a"] + [] == ["a"];
    assert Split("a") == ["a"];
    assert SegmentError("a", options).None? && ["a"][1..] == [];
    assert FirstError(["a"], options).None?;
  }

  lemma OneStepPrints()
    ensures Print(ONE_STEP) == "{{a}}" && Apart(Pieces(ONE_STEP))
  {
    OneStepPath(DEFAULTS);
    TrimTight("a");
    InnerIsSingle("a", DEFAULTS);
    assert Pieces(ONE_STEP) == [Braced("a")] && [Braced("a")][1..] == [];
    assert "{{" + "a" + "}}" + "" == "{{a}}";
  }

  lemma OneStepParses()
    ensures Parse("{{a}}", DEFAULTS) == Ok(Describe("{{a}}", ONE_STEP))
  {
    OneStepPath(DEFAULTS);
    OneStepPrints();
    PrintThenParse(ONE_STEP, DEFAULTS);
  }

  /** An entry parsed under wide limits is returned to a caller whose own limits refuse the source. */
  lemma StaleAnswer()
    ensures var tight := DEFAULTS.(maxInterpolations := 0);
      Answer(Run([Call("{{a}}", DEFAULTS)]), "{{a}}", tight).Ok? && Parse("{{a}}", tight).Bad?
  {
    OneStepParses();
    var calls := [Call("{{a}}", DEFAULTS)];
    assert calls[..0] == [];
    LimitsOnly("{{a}}", DEFAULTS, DEFAULTS.(maxInterpolations := 0));
    assert CountOf(ONE_STEP) == 1;
    CacheIsFresh(calls, "{{a}}", DEFAULTS);
  }

  // ----- the size of the cache

  /** Over the limit only with the empty string as the oldest key. */
  lemma {:induction false} OverOnlyBehindEmpty(history: seq<Call>)
    ensures |Run(history)| > CACHE_MAX ==> Run(history)[0].source == ""
  {
    if history != [] { OverOnlyBehindEmpty(history[..|history| - 1]); }
  }

  /**
   A call takes a cache from within the limit to over it exactly when a full cache has the empty string as its oldest
   key.
   */
  lemma LimitIsPassed(entries: seq<Parsed>, source: string, options: Options)
    requires |entries| <= CACHE_MAX
    ensures |After(entries, source, options)| > CACHE_MAX <==>
      |entries| == CACHE_MAX && entries[0].source == "" && !Holds(entries, source) && Parse(source, options).Ok?
  {
  }

  /** As long as the empty string is not parsed, the limit holds. */
  lemma LimitHolds(history: seq<Call>)
    requires forall c | c in history :: c.source != ""
    ensures |Run(history)| <= CACHE_MAX
  {
    OverOnlyBehindEmpty(history);
    if Run(history) != [] { var c := EntryOrigin(history, 0); }
  }

  /** The source stands in the cache with at most `n` entries behind it. */
  ghost predicate Near(entries: seq<Parsed>, source: string, n: nat) {
    exists i :: 0 <= i < |entries| && entries[i].source == source && |entries| - 1 - i <= n
  }

  lemma NearIsHeld(entries: seq<Parsed>, source: string, n: nat)
    requires Near(entries, source, n)
    ensures Holds(entries, source)
  {
    var i :| 0 <= i < |entries| && entries[i].source == source && |entries| - 1 - i <= n;
  }

  /** One more call puts at most one entry behind it, and drops it only from the front of a full cache. */
  lemma StaysNear(entries: seq<Parsed>, source: string, n: nat, c: Call)
    requires Near(entries, source, n) && n + 1 < CACHE_MAX
    ensures Near(After(entries, c.source, c.options), source, n + 1)
  {
    var i :| 0 <= i < |entries| && entries[i].source == source && |entries| - 1 - i <= n;
    var parsed := Parse(c.source, c.options);
    if Holds(entries, c.source) || parsed.Bad? {
      assert After(entries, c.source, c.options) == entries;
    } else {
      var all := entries + [parsed.value];
      assert all[i].source == source;
      if |all| > CACHE_MAX && all[0].source != "" {
        assert i > 0 && all[1..][i - 1].source == source;
      }
    }
  }

  lemma NewIsNear(entries: seq<Parsed>, c: Call)
    requires !Holds(entries, c.source) && Parse(c.source, c.options).Ok?
    ensures Near(After(entries, c.source, c.options), c.source, 0)
  {
    var all := entries + [Parse(c.source, c.options).value];
    var kept := Evict(all);
    assert kept[|kept| - 1] == all[|all| - 1];
    assert kept[|kept| - 1].source == c.source;
  }

  lemma RunStep(history: seq<Call>, c: Call)
    ensures Run(history + [c]) == After(Run(history), c.source, c.options)
  {
    assert (history + [c])[..|history|] == history;
  }

  lemma {:induction false} RecentIsNear(history: seq<Call>, c: Call, later: seq<Call>)
    requires !Holds(Run(history), c.source) && Parse(c.source, c.options).Ok? && |later| < CACHE_MAX
    ensures Near(Run(history + [c] + later), c.source, |later|)
  {
    if later == [] {
      assert history + [c] + later == history + [c];
      RunStep(history, c);
      NewIsNear(Run(history), c);
    } else {
      var before, last := later[..|later| - 1], later[|later| - 1];
      RecentIsNear(history, c, before);
      assert history + [c] + later == (history + [c] + before) + [last];
      RunStep(history + [c] + before, last);
      StaysNear(Run(history + [c] + before), c.source, |before|, last);
    }
  }

  /** The cache drops the oldest entry first: a new entry survives the next 499 calls, whatever they are. */
  lemma RecentIsHeld(history: seq<Call>, c: Call, later: seq<Call>)
    requires !Holds(Run(history), c.source) && Parse(c.source, c.options).Ok? && |later| < CACHE_MAX
    ensures Holds(Run(history + [c] + later), c.source)
  {
    RecentIsNear(history, c, later);
    NearIsHeld(Run(history + [c] + later), c.source, |later|);
  }

  /** The empty string parsed first, then longer and longer runs of one letter. */
  function Runs(n: nat): seq<Call> {
    (if n == 0 then [] else Runs(n - 1)) + [Call(Letters(n), DEFAULTS)]
  }

  function Letters(n: nat): (s: string)
    ensures |s| == n
  {
    seq(n, _ => 'a')
  }

  lemma PlainParses(s: string, options: Options)
    requires !Includes(s, '{') && !Includes(s, '}')
    ensures Parse(s, options).Ok? && Parse(s, options).value.source == s
  {
    assert NextMatch(s).None?;
    ReadIsExact(Chop(s), if s == "" then [] else [TextPart(s)], 0, options);
  }

  lemma LettersParse(n: nat)
    ensures Parse(Letters(n), DEFAULTS).Ok? && Parse(Letters(n), DEFAULTS).value.source == Letters(n)
  {
    PlainParses(Letters(n), DEFAULTS);
  }

  /** A new source behind the empty string is kept with all the others. */
  lemma GrowsBehindEmpty(entries: seq<Parsed>, source: string, options: Options)
    requires !Holds(entries, source) && Parse(source, options).Ok? && (entries != [] ==> entries[0].source == "")
    requires entries == [] ==> source == ""
    ensures After(entries, source, options) == entries + [Parse(source, options).value]
  {
  }

  /** Then nothing is ever dropped: the cache grows without bound. */
  lemma {:induction false} NoBound(n: nat)
    ensures |Run(Runs(n))| == n + 1
    ensures forall i | 0 <= i <= n :: Run(Runs(n))[i].source == Letters(i)
  {
    LettersParse(n);
    var entries := if n == 0 then [] else Run(Runs(n - 1));
    RunsLength(n);
    assert Runs(n)[..n] == if n == 0 then [] else Runs(n - 1);
    if n > 0 { NoBound(n - 1); }
    LettersAreNew(entries, n);
    GrowsBehindEmpty(entries, Letters(n), DEFAULTS);
  }

  lemma LettersAreNew(entries: seq<Parsed>, n: nat)
    requires |entries| == n && forall i | 0 <= i < n :: entries[i].source == Letters(i)
    ensures !Holds(entries, Letters(n)) && (n > 0 ==> entries[0].source == "")
  {
    assert forall i | 0 <= i < n :: |entries[i].source| == i;
  }

  lemma {:induction false} RunsLength(n: nat)
    ensures |Runs(n)| == n + 1
  {
    if n > 0 { RunsLength(n - 1); }
  }
}
