/** Structured workflows: single steps, sequences, branches, loops and error handling, and their layout as graphs. */
module Flows {
  import opened Text
  import opened Digraph
  import opened GraphModel

  datatype Flow =
    | Task(key: string, kind: string)
    | Then(first: Flow, second: Flow)
    | If(key: string, yes: Flow, no: Flow)
    | Loop(key: string, body: Flow)
    | Try(key: string, body: Flow, caught: Flow, finally: Flow)

  function Plain(key: string, kind: string): Step {
    Step(None, key, kind, [])
  }

  function Link(from: string, to: string, kind: string): Edge {
    Edge(Str(from), Str(to), Str(kind), Missing)
  }

  // ----- the layout

  function Entry(f: Flow): string {
    if f.Then? then Entry(f.first) else f.key
  }

  function KeysIn(f: Flow): set<string> {
    match f
    case Task(key, _) => {key}
    case Then(first, second) => KeysIn(first) + KeysIn(second)
    case If(key, yes, no) => {key} + KeysIn(yes) + KeysIn(no)
    case Loop(key, body) => {key} + KeysIn(body)
    case Try(key, body, caught, finally) => {key} + KeysIn(body) + KeysIn(caught) + KeysIn(finally)
  }

  function Steps(f: Flow): seq<Step> {
    match f
    case Task(key, kind) => [Plain(key, kind)]
    case Then(first, second) => Steps(first) + Steps(second)
    case If(key, yes, no) => [Plain(key, "if")] + Steps(yes) + Steps(no)
    case Loop(key, body) => [Plain(key, FOR_EACH)] + Steps(body)
    case Try(key, body, caught, finally) =>
      [Plain(key, TRY_CATCH)] + Steps(body) + Steps(caught) + Steps(finally)
  }

  /** The edges out of the step that starts the flow, when it is one of its own. */
  function Out(f: Flow, next: string): seq<Edge> {
    match f
    case Task(key, _) => [Link(key, next, "next")]
    case Then(_, _) => []
    case If(key, yes, no) => [Link(key, Entry(yes), "if_true"), Link(key, Entry(no), "if_false")]
    case Loop(key, body) => [Link(key, Entry(body), "for_each_body"), Link(key, next, "for_each_done")]
    case Try(key, body, caught, finally) =>
      [Link(key, Entry(body), "try_body"), Link(key, Entry(caught), "try_catch"),
       Link(key, Entry(finally), "try_finally"), Link(key, next, "try_done")]
  }

  /** The edges inside the parts of the flow. Body and Catch of a TRY_CATCH lead to its Finally. */
  function Inner(f: Flow, next: string): seq<Edge>
    decreases f, 0
  {
    match f
    case Task(_, _) => []
    case Then(first, second) => Edges(first, Entry(second)) + Edges(second, next)
    case If(_, yes, no) => Edges(yes, next) + Edges(no, next)
    case Loop(_, body) => Edges(body, next)
    case Try(_, body, caught, finally) =>
      Edges(body, Entry(finally)) + Edges(caught, Entry(finally)) + Edges(finally, next)
  }

  /** The edges of a flow that is followed by the step `next`. */
  function Edges(f: Flow, next: string): seq<Edge>
    decreases f, 1
  {
    Out(f, next) + Inner(f, next)
  }

  // ----- which flows

  predicate PlainName(s: string) {
    s != "" && Tight(s) && ':' !in s
  }

  predicate OrdinaryKind(kind: string) {
    kind !in {CONDITIONAL, FOR_EACH, TRY_CATCH}
  }

  /** Keys without surrounding white space and without the colon that joins them to outputs. */
  predicate WellNamed(f: Flow) {
    match f
    case Task(key, kind) => PlainName(key) && OrdinaryKind(kind)
    case Then(first, second) => WellNamed(first) && WellNamed(second)
    case If(key, yes, no) => PlainName(key) && WellNamed(yes) && WellNamed(no)
    case Loop(key, body) => PlainName(key) && WellNamed(body)
    case Try(key, body, caught, finally) =>
      PlainName(key) && WellNamed(body) && WellNamed(caught) && WellNamed(finally)
  }

  predicate Free(f: Flow, kind: string) {
    forall s | s in Steps(f) :: s.kind != kind
  }

  /** No FOR_EACH inside the body of another, no TRY_CATCH inside a part of another. */
  predicate Nested(f: Flow) {
    match f
    case Task(_, _) => true
    case Then(first, second) => Nested(first) && Nested(second)
    case If(_, yes, no) => Nested(yes) && Nested(no)
    case Loop(_, body) => Free(body, FOR_EACH) && Nested(body)
    case Try(_, body, caught, finally) =>
      && Free(body, TRY_CATCH) && Free(caught, TRY_CATCH) && Free(finally, TRY_CATCH)
      && Nested(body) && Nested(caught) && Nested(finally)
  }

  /** No key stands for two steps. */
  predicate Separate(f: Flow) {
    match f
    case Task(_, _) => true
    case Then(first, second) => KeysIn(first) !! KeysIn(second) && Separate(first) && Separate(second)
    case If(key, yes, no) =>
      key !in KeysIn(yes) + KeysIn(no) && KeysIn(yes) !! KeysIn(no) && Separate(yes) && Separate(no)
    case Loop(key, body) => key !in KeysIn(body) && Separate(body)
    case Try(key, body, caught, finally) =>
      && key !in KeysIn(body) + KeysIn(caught) + KeysIn(finally)
      && KeysIn(body) !! KeysIn(caught) && KeysIn(body) !! KeysIn(finally) && KeysIn(caught) !! KeysIn(finally)
      && Separate(body) && Separate(caught) && Separate(finally)
  }

  lemma EntryInside(f: Flow)
    ensures Entry(f) in KeysIn(f)
  {
  }

  // ----- the keys of the steps

  lemma KeysJoin(a: seq<Step>, b: seq<Step>)
    ensures Keys(a + b) == Keys(a) + Keys(b)
  {
  }

  lemma ElemsJoin(a: seq<string>, b: seq<string>)
    ensures Elems(a + b) == Elems(a) + Elems(b)
  {
  }

  lemma KeysOfParts(a: seq<Step>, b: seq<Step>)
    ensures Elems(Keys(a + b)) == Elems(Keys(a)) + Elems(Keys(b))
  {
    KeysJoin(a, b);
    ElemsJoin(Keys(a), Keys(b));
  }

  lemma DistinctApart(a: seq<Step>, b: seq<Step>)
    requires DistinctKeys(a + b)
    ensures DistinctKeys(a) && DistinctKeys(b) && Elems(Keys(a)) !! Elems(Keys(b))
  {
    var c := a + b;
    forall i, j | 0 <= i < j < |a|
      ensures a[i].key != a[j].key
    {
      assert c[i].key != c[j].key;
    }
    forall i, j | 0 <= i < j < |b|
      ensures b[i].key != b[j].key
    {
      assert c[|a| + i].key != c[|a| + j].key;
    }
    forall i, j | 0 <= i < |a| && 0 <= j < |b|
      ensures Keys(a)[i] != Keys(b)[j]
    {
      assert c[i].key != c[|a| + j].key;
    }
  }

  lemma DistinctTogether(a: seq<Step>, b: seq<Step>)
    requires DistinctKeys(a) && DistinctKeys(b) && Elems(Keys(a)) !! Elems(Keys(b))
    ensures DistinctKeys(a + b)
  {
    var c := a + b;
    forall i, j | 0 <= i < j < |c|
      ensures c[i].key != c[j].key
    {
      if i < |a| <= j {
        assert Keys(a)[i] in Elems(Keys(a)) && Keys(b)[j - |a|] in Elems(Keys(b));
      }
    }
  }

  lemma OneStep(key: string, kind: string)
    ensures Elems(Keys([Plain(key, kind)])) == {key} && DistinctKeys([Plain(key, kind)])
  {
    assert Keys([Plain(key, kind)])[0] == key;
  }

  /** The steps have exactly the keys of the flow, each once if and only if the flow keeps them apart. */
  lemma {:induction false} StepKeys(f: Flow)
    ensures Elems(Keys(Steps(f))) == KeysIn(f) && (DistinctKeys(Steps(f)) <==> Separate(f))
  {
    match f
    case Task(key, kind) => OneStep(key, kind);
    case Then(first, second) =>
      StepKeys(first);
      StepKeys(second);
      BothKeys(Steps(first), Steps(second));
    case If(key, yes, no) =>
      StepKeys(yes);
      StepKeys(no);
      OneStep(key, "if");
      BothKeys([Plain(key, "if")], Steps(yes));
      BothKeys([Plain(key, "if")] + Steps(yes), Steps(no));
    case Loop(key, body) =>
      StepKeys(body);
      OneStep(key, FOR_EACH);
      BothKeys([Plain(key, FOR_EACH)], Steps(body));
    case Try(key, body, caught, finally) =>
      StepKeys(body);
      StepKeys(caught);
      StepKeys(finally);
      OneStep(key, TRY_CATCH);
      BothKeys([Plain(key, TRY_CATCH)], Steps(body));
      BothKeys([Plain(key, TRY_CATCH)] + Steps(body), Steps(caught));
      BothKeys([Plain(key, TRY_CATCH)] + Steps(body) + Steps(caught), Steps(finally));
  }

  lemma BothKeys(a: seq<Step>, b: seq<Step>)
    ensures Elems(Keys(a + b)) == Elems(Keys(a)) + Elems(Keys(b))
    ensures DistinctKeys(a + b) <==> DistinctKeys(a) && DistinctKeys(b) && Elems(Keys(a)) !! Elems(Keys(b))
  {
    KeysOfParts(a, b);
    if DistinctKeys(a + b) { DistinctApart(a, b); }
    if DistinctKeys(a) && DistinctKeys(b) && Elems(Keys(a)) !! Elems(Keys(b)) { DistinctTogether(a, b); }
  }

  lemma {:induction false} KindOfStep(steps: seq<Step>, s: Step)
    requires DistinctKeys(steps) && s in steps
    ensures KindOf(steps, s.key) == Some(s.kind)
  {
    if steps[0] != s {
      assert s in steps[1..];
      var i :| 0 <= i < |steps[1..]| && steps[1..][i] == s;
      assert steps[i + 1] == s && steps[0].key != s.key;
      KindOfStep(steps[1..], s);
    }
  }

  ghost predicate NoneOf(steps: seq<Step>, area: set<string>, kind: string) {
    forall k | k in area :: KindOf(steps, k) != Some(kind)
  }

  /** The kinds found under the keys of a flow are those of its steps. */
  lemma FreeMeans(f: Flow, kind: string, steps: seq<Step>)
    requires DistinctKeys(steps) && forall s | s in Steps(f) :: s in steps
    ensures Free(f, kind) <==> NoneOf(steps, KeysIn(f), kind)
  {
    StepKeys(f);
    forall s | s in Steps(f)
      ensures s.key in KeysIn(f) && KindOf(steps, s.key) == Some(s.kind)
    {
      KindOfStep(steps, s);
      var i :| 0 <= i < |Steps(f)| && Steps(f)[i] == s;
      assert Keys(Steps(f))[i] == s.key;
    }
    forall k | k in KeysIn(f)
      ensures exists s :: s in Steps(f) && s.key == k
    {
      var i :| 0 <= i < |Steps(f)| && Keys(Steps(f))[i] == k;
      assert Steps(f)[i] in Steps(f);
    }
  }

  // ----- the edges one by one

  const LINK_KINDS := {"next", "if_true", "if_false", "for_each_body", "for_each_done",
                       "try_body", "try_catch", "try_finally", "try_done"}

  predicate GoodLink(e: Edge) {
    && e.from.Str? && e.to.Str? && e.kind.Str? && e.caseKey.Missing?
    && PlainName(e.from.s) && PlainName(e.to.s) && e.kind.s in LINK_KINDS
  }

  lemma LinkKindIsName(kind: string)
    requires kind in LINK_KINDS
    ensures PlainName(kind)
  {
  }

  lemma LinkReads(e: Edge)
    requires GoodLink(e)
    ensures Joined(e) && From(e) == e.from.s && To(e) == e.to.s && StringValue(e.kind) == Some(e.kind.s)
  {
    LinkKindIsName(e.kind.s);
    TrimTight(e.from.s);
    TrimTight(e.to.s);
    TrimTight(e.kind.s);
  }

  lemma EntryIsPlain(f: Flow)
    requires WellNamed(f)
    ensures PlainName(Entry(f))
  {
  }

  lemma KnownKinds()
    ensures "next" in LINK_KINDS && "if_true" in LINK_KINDS && "if_false" in LINK_KINDS
    ensures "for_each_body" in LINK_KINDS && "for_each_done" in LINK_KINDS
    ensures "try_body" in LINK_KINDS && "try_catch" in LINK_KINDS
    ensures "try_finally" in LINK_KINDS && "try_done" in LINK_KINDS
  {
  }

  lemma LinkIsGood(from: string, to: string, kind: string)
    requires PlainName(from) && PlainName(to) && kind in LINK_KINDS
    ensures GoodLink(Link(from, to, kind))
  {
  }

  lemma TryOutEnds(f: Flow, next: string, e: Edge)
    requires f.Try? && WellNamed(f) && PlainName(next) && e in Out(f, next)
    ensures GoodLink(e) && e.from.s == f.key && e.to.s in {Entry(f.body), Entry(f.caught), Entry(f.finally), next}
  {
    KnownKinds();
    EntryIsPlain(f.body);
    EntryIsPlain(f.caught);
    EntryIsPlain(f.finally);
    LinkIsGood(f.key, Entry(f.body), "try_body");
    LinkIsGood(f.key, Entry(f.caught), "try_catch");
    LinkIsGood(f.key, Entry(f.finally), "try_finally");
    LinkIsGood(f.key, next, "try_done");
  }

  lemma OutEnds(f: Flow, next: string, e: Edge)
    requires WellNamed(f) && PlainName(next) && e in Out(f, next)
    ensures GoodLink(e) && e.from.s == Entry(f) && e.to.s in KeysIn(f) + {next}
  {
    match f
    case Task(key, _) =>
      KnownKinds();
      LinkIsGood(key, next, "next");
    case If(key, yes, no) =>
      KnownKinds();
      EntryIsPlain(yes);
      EntryIsPlain(no);
      EntryInside(yes);
      EntryInside(no);
      LinkIsGood(key, Entry(yes), "if_true");
      LinkIsGood(key, Entry(no), "if_false");
    case Loop(key, body) =>
      KnownKinds();
      EntryIsPlain(body);
      EntryInside(body);
      LinkIsGood(key, Entry(body), "for_each_body");
      LinkIsGood(key, next, "for_each_done");
    case Try(_, body, caught, finally) =>
      EntryInside(body);
      EntryInside(caught);
      EntryInside(finally);
      TryOutEnds(f, next, e);
  }

  /** Every edge starts in the flow and stays in it or leads to the step that follows. */
  lemma {:induction false} EdgeEnds(f: Flow, next: string, e: Edge)
    requires WellNamed(f) && PlainName(next) && e in Edges(f, next)
    ensures GoodLink(e) && e.from.s in KeysIn(f) && e.to.s in KeysIn(f) + {next}
    decreases f
  {
    EntryInside(f);
    if e in Out(f, next) {
      OutEnds(f, next, e);
    } else {
      match f
      case Then(first, second) =>
        EntryIsPlain(second);
        EntryInside(second);
        if e in Edges(first, Entry(second)) { EdgeEnds(first, Entry(second), e); } else { EdgeEnds(second, next, e); }
      case If(_, yes, no) =>
        if e in Edges(yes, next) { EdgeEnds(yes, next, e); } else { EdgeEnds(no, next, e); }
      case Loop(_, body) => EdgeEnds(body, next, e);
      case Try(_, body, caught, finally) =>
        EntryIsPlain(finally);
        EntryInside(finally);
        if e in Edges(body, Entry(finally)) {
          EdgeEnds(body, Entry(finally), e);
        } else if e in Edges(caught, Entry(finally)) {
          EdgeEnds(caught, Entry(finally), e);
        } else {
          EdgeEnds(finally, next, e);
        }
    }
  }

  // ----- edges lead forward

  function Count(f: Flow): nat {
    match f
    case Task(_, _) => 1
    case Then(first, second) => Count(first) + Count(second)
    case If(_, yes, no) => 1 + Count(yes) + Count(no)
    case Loop(_, body) => 1 + Count(body)
    case Try(_, body, caught, finally) => 1 + Count(body) + Count(caught) + Count(finally)
  }

  /** Where the step stands among those of the flow; behind them all for any other key. */
  function Place(f: Flow, k: string): nat {
    if k !in KeysIn(f) then Count(f) else
    match f
    case Task(_, _) => 0
    case Then(first, second) => if k in KeysIn(first) then Place(first, k) else Count(first) + Place(second, k)
    case If(key, yes, no) =>
      if k == key then 0 else if k in KeysIn(yes) then 1 + Place(yes, k) else 1 + Count(yes) + Place(no, k)
    case Loop(key, body) => if k == key then 0 else 1 + Place(body, k)
    case Try(key, body, caught, finally) =>
      if k == key then 0
      else if k in KeysIn(body) then 1 + Place(body, k)
      else if k in KeysIn(caught) then 1 + Count(body) + Place(caught, k)
      else 1 + Count(body) + Count(caught) + Place(finally, k)
  }

  lemma {:induction false} PlaceInside(f: Flow, k: string)
    ensures k in KeysIn(f) <==> Place(f, k) < Count(f)
  {
    match f
    case Task(_, _) =>
    case Then(first, second) =>
      PlaceInside(first, k);
      PlaceInside(second, k);
    case If(_, yes, no) =>
      PlaceInside(yes, k);
      PlaceInside(no, k);
    case Loop(_, body) => PlaceInside(body, k);
    case Try(_, body, caught, finally) =>
      PlaceInside(body, k);
      PlaceInside(caught, k);
      PlaceInside(finally, k);
  }

  lemma {:induction false} Forward(f: Flow, next: string, e: Edge)
    requires WellNamed(f) && PlainName(next) && Separate(f) && next !in KeysIn(f) && e in Edges(f, next)
    ensures GoodLink(e) && Place(f, e.from.s) < Place(f, e.to.s)
    decreases f, 2
  {
    if e in Out(f, next) {
      OutForward(f, next, e);
    } else {
      match f
      case Then(first, second) => ThenForward(f, next, e);
      case If(_, yes, no) => IfForward(f, next, e);
      case Loop(_, body) =>
        EdgeEnds(body, next, e);
        Forward(body, next, e);
      case Try(_, body, caught, finally) => TryForward(f, next, e);
    }
  }

  lemma {:induction false} ThenForward(f: Flow, next: string, e: Edge)
    requires f.Then? && WellNamed(f) && PlainName(next) && Separate(f) && next !in KeysIn(f) && e in Inner(f, next)
    ensures GoodLink(e) && Place(f, e.from.s) < Place(f, e.to.s)
    decreases f, 1
  {
    var first, second := f.first, f.second;
    EntryIsPlain(second);
    EntryInside(second);
    if e in Edges(first, Entry(second)) {
      EdgeEnds(first, Entry(second), e);
      Forward(first, Entry(second), e);
      PlaceInside(first, e.from.s);
    } else {
      EdgeEnds(second, next, e);
      Forward(second, next, e);
    }
  }

  lemma {:induction false} IfForward(f: Flow, next: string, e: Edge)
    requires f.If? && WellNamed(f) && PlainName(next) && Separate(f) && next !in KeysIn(f) && e in Inner(f, next)
    ensures GoodLink(e) && Place(f, e.from.s) < Place(f, e.to.s)
    decreases f, 1
  {
    if e in Edges(f.yes, next) {
      EdgeEnds(f.yes, next, e);
      Forward(f.yes, next, e);
      PlaceInside(f.yes, e.from.s);
    } else {
      EdgeEnds(f.no, next, e);
      Forward(f.no, next, e);
    }
  }

  lemma OutForward(f: Flow, next: string, e: Edge)
    requires WellNamed(f) && PlainName(next) && Separate(f) && next !in KeysIn(f) && e in Out(f, next)
    ensures GoodLink(e) && Place(f, e.from.s) < Place(f, e.to.s)
  {
    OutEnds(f, next, e);
    EntryInside(f);
    assert Place(f, e.from.s) == 0;
    PlaceInside(f, e.to.s);
    match f
    case Task(_, _) =>
    case If(_, yes, no) =>
      EntryInside(yes);
      EntryInside(no);
    case Loop(_, body) => EntryInside(body);
    case Try(_, body, caught, finally) =>
      EntryInside(body);
      EntryInside(caught);
      EntryInside(finally);
  }

  lemma {:induction false} TryForward(f: Flow, next: string, e: Edge)
    requires f.Try? && WellNamed(f) && PlainName(next) && Separate(f) && next !in KeysIn(f) && e in Inner(f, next)
    ensures GoodLink(e) && Place(f, e.from.s) < Place(f, e.to.s)
    decreases f, 1
  {
    EntryIsPlain(f.finally);
    EntryInside(f.finally);
    if e in Edges(f.body, Entry(f.finally)) {
      Forward(f.body, Entry(f.finally), e);
      TryBodyForward(f, e);
    } else if e in Edges(f.caught, Entry(f.finally)) {
      Forward(f.caught, Entry(f.finally), e);
      TryCatchForward(f, e);
    } else {
      EdgeEnds(f.finally, next, e);
      Forward(f.finally, next, e);
      TryFinallyForward(f, next, e);
    }
  }

  lemma TryBodyForward(f: Flow, e: Edge)
    requires f.Try? && WellNamed(f) && Separate(f) && e in Edges(f.body, Entry(f.finally))
    requires GoodLink(e) && Place(f.body, e.from.s) < Place(f.body, e.to.s)
    ensures Place(f, e.from.s) < Place(f, e.to.s)
  {
    EntryIsPlain(f.finally);
    EntryInside(f.finally);
    EdgeEnds(f.body, Entry(f.finally), e);
    PlaceInside(f.body, e.from.s);
  }

  lemma TryCatchForward(f: Flow, e: Edge)
    requires f.Try? && WellNamed(f) && Separate(f) && e in Edges(f.caught, Entry(f.finally))
    requires GoodLink(e) && Place(f.caught, e.from.s) < Place(f.caught, e.to.s)
    ensures Place(f, e.from.s) < Place(f, e.to.s)
  {
    EntryIsPlain(f.finally);
    EntryInside(f.finally);
    EdgeEnds(f.caught, Entry(f.finally), e);
    PlaceInside(f.caught, e.from.s);
  }

  lemma TryFinallyForward(f: Flow, next: string, e: Edge)
    requires f.Try? && Separate(f) && next !in KeysIn(f) && GoodLink(e)
    requires e.from.s in KeysIn(f.finally) && e.to.s in KeysIn(f.finally) + {next}
    requires Place(f.finally, e.from.s) < Place(f.finally, e.to.s)
    ensures Place(f, e.from.s) < Place(f, e.to.s)
  {
  }
}
