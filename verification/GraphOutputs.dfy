/** When two edges of a graph are the same edge, and when they use the same output of their step. */
module GraphOutputs {
  import opened Text
  import opened GraphModel

  // ----- values

  /** A field of an edge is read without the white space around it; blank and other values count as absent. */
  lemma ValueReads(v: Value, a: string, s: string, b: string)
    requires Blank(a) && Blank(b) && Tight(s)
    ensures StringValue(Str(a + s + b)) == if s == "" then None else Some(s)
    ensures !v.Str? ==> StringValue(v) == None
  {
    TrimPadded(a, s, b);
  }

  // ----- outputs

  function KindOfEdge(e: Edge): string {
    match StringValue(e.kind)
    case Some(kind) => kind
    case None => ""
  }

  /** Kinds that name one output, though they belong to different kinds of steps. */
  predicate OneOutput(k: string, l: string) {
    || (k == "for_each_body" && l == "try_body") || (k == "try_body" && l == "for_each_body")
    || (k == "for_each_done" && l == "try_done") || (k == "try_done" && l == "for_each_done")
  }

  /** Cases are told apart by their trimmed case keys, all other edges by their kind. */
  predicate SameOutput(d: Edge, e: Edge) {
    var k, l := KindOfEdge(d), KindOfEdge(e);
    || (k == l && (k == "switch_case" ==> StringValue(d.caseKey) == StringValue(e.caseKey)))
    || OneOutput(k, l)
  }

  const KINDS := ["next", "if_true", "if_false", "switch_default", "switch_case", "for_each_body", "for_each_done",
                  "try_catch", "try_finally", "approval_approved", "approval_rejected", "approval_expired",
                  "try_body", "try_done"]

  /** The position of the kind among KINDS. */
  function Number(kind: string): (n: nat)
    requires kind in EDGE_KINDS
    ensures n < 14 && KINDS[n] == kind
  {
    if kind == "next" then 0
    else if kind == "if_true" then 1
    else if kind == "if_false" then 2
    else if kind == "switch_default" then 3
    else if kind == "switch_case" then 4
    else if kind == "for_each_body" then 5
    else if kind == "for_each_done" then 6
    else if kind == "try_catch" then 7
    else if kind == "try_finally" then 8
    else if kind == "approval_approved" then 9
    else if kind == "approval_rejected" then 10
    else if kind == "approval_expired" then 11
    else if kind == "try_body" then 12
    else 13
  }

  lemma KindsAreKnown(kind: string)
    ensures kind in EDGE_KINDS <==> kind in KINDS
  {
    if kind in EDGE_KINDS { assert KINDS[Number(kind)] == kind; }
  }

  /** The last two kinds share the outputs of a FOR_EACH. */
  function OutputNumber(n: nat): nat {
    if n == 12 then 5 else if n == 13 then 6 else n
  }

  /** The number of an output, read off the first and third character of its name. */
  function NumberOfHandle(handle: string): nat {
    if |handle| < 3 then 99 else
    var (a, b) := (handle[0], handle[2]);
    match a
    case 'n' => 0
    case 't' => 1
    case 'f' => if b == 'l' then 2 else 8
    case 'd' => if b == 'f' then 3 else 6
    case 'c' => if b == 's' then 4 else 7
    case 'b' => 5
    case 'a' => 9
    case 'r' => 10
    case _ => 11
  }

  lemma HandleNumber(e: Edge)
    requires KindOfEdge(e) in EDGE_KINDS
    ensures NumberOfHandle(HandleOf(e)) == OutputNumber(Number(KindOfEdge(e)))
  {
  }

  lemma NumbersTell(k: string, l: string)
    requires k in EDGE_KINDS && l in EDGE_KINDS && OutputNumber(Number(k)) == OutputNumber(Number(l))
    ensures k == l || OneOutput(k, l)
  {
    var m, n := Number(k), Number(l);
    assert k == KINDS[m] && l == KINDS[n];
  }

  lemma CaseHandle(e: Edge)
    requires KindOfEdge(e) == "switch_case"
    ensures HandleOf(e) == "case:" + (if StringValue(e.caseKey).Some? then StringValue(e.caseKey).value else "")
  {
  }

  lemma CasesTell(d: Edge, e: Edge)
    requires KindOfEdge(d) == KindOfEdge(e) == "switch_case"
    ensures HandleOf(d) == HandleOf(e) <==> StringValue(d.caseKey) == StringValue(e.caseKey)
  {
    CaseHandle(d);
    CaseHandle(e);
    var x := if StringValue(d.caseKey).Some? then StringValue(d.caseKey).value else "";
    var y := if StringValue(e.caseKey).Some? then StringValue(e.caseKey).value else "";
    assert ("case:" + x)[5..] == x && ("case:" + y)[5..] == y;
  }

  lemma KindsTell(d: Edge, e: Edge)
    requires KindOfEdge(d) == KindOfEdge(e) != "switch_case"
    ensures HandleOf(d) == HandleOf(e)
  {
  }

  lemma SharedOutputs(d: Edge, e: Edge)
    requires OneOutput(KindOfEdge(d), KindOfEdge(e))
    ensures HandleOf(d) == HandleOf(e)
  {
  }

  /** Edges of known kinds have one output name exactly when they use the same output. */
  lemma OutputsTell(d: Edge, e: Edge)
    requires KindOfEdge(d) in EDGE_KINDS && KindOfEdge(e) in EDGE_KINDS
    ensures HandleOf(d) == HandleOf(e) <==> SameOutput(d, e)
  {
    var k, l := KindOfEdge(d), KindOfEdge(e);
    if k == l {
      if k == "switch_case" { CasesTell(d, e); } else { KindsTell(d, e); }
    } else if OneOutput(k, l) {
      SharedOutputs(d, e);
    } else {
      HandleNumber(d);
      HandleNumber(e);
      if OutputNumber(Number(k)) == OutputNumber(Number(l)) { NumbersTell(k, l); }
    }
  }

  // ----- identifiers

  lemma FirstOf(c: char, a: string, x: string)
    requires c !in a
    ensures var s := a + [c] + x;
      |a| < |s| && s[|a|] == c && (forall i | 0 <= i < |a| :: s[i] != c) && s[..|a|] == a && s[|a| + 1..] == x
  {
    assert forall i | 0 <= i < |a| :: a[i] in a;
  }

  /** Strings joined to others by a character that they do not contain. */
  lemma Splits(c: char, a: string, x: string, b: string, y: string)
    requires c !in a && c !in b && a + [c] + x == b + [c] + y
    ensures a == b && x == y
  {
    FirstOf(c, a, x);
    FirstOf(c, b, y);
  }

  lemma ColonSplits(a: string, x: string, b: string, y: string)
    requires ':' !in a && ':' !in b && a + ":" + x == b + ":" + y
    ensures a == b && x == y
  {
    Splits(':', a, x, b, y);
  }

  lemma ArrowSplits(a: string, x: string, b: string, y: string)
    requires '>' !in a && '>' !in b && a + "->" + x == b + "->" + y
    ensures a == b && x == y
  {
    assert a + "->" + x == (a + "-") + ">" + x && b + "->" + y == (b + "-") + ">" + y;
    Splits('>', a + "-", x, b + "-", y);
    assert (a + "-")[..|a|] == a && (b + "-")[..|b|] == b;
  }

  /** The edge's parts as text, none of which holds a character that joins it to the next. */
  predicate Separable(e: Edge) {
    ':' !in Shown(e.from) && ':' !in Shown(e.kind) && '>' !in Shown(e.caseKey)
  }

  /** The identifier tells the origin, the kind, the case key and the target of an edge. */
  lemma IdTells(d: Edge, e: Edge)
    requires Separable(d) && Separable(e)
    ensures EdgeId(d) == EdgeId(e) <==>
      && Shown(d.from) == Shown(e.from) && Shown(d.kind) == Shown(e.kind)
      && Shown(d.caseKey) == Shown(e.caseKey) && Shown(d.to) == Shown(e.to)
  {
    var u, v := Shown(d.caseKey) + "->" + Shown(d.to), Shown(e.caseKey) + "->" + Shown(e.to);
    IdParts(d);
    IdParts(e);
    if EdgeId(d) == EdgeId(e) {
      ColonSplits(Shown(d.from), Shown(d.kind) + ":" + u, Shown(e.from), Shown(e.kind) + ":" + v);
      ColonSplits(Shown(d.kind), u, Shown(e.kind), v);
      ArrowSplits(Shown(d.caseKey), Shown(d.to), Shown(e.caseKey), Shown(e.to));
    }
  }

  lemma IdParts(e: Edge)
    ensures EdgeId(e) == Shown(e.from) + ":" + (Shown(e.kind) + ":" + (Shown(e.caseKey) + "->" + Shown(e.to)))
  {
  }

  // ----- what the edge checks accept

  /** Two valid edges use the same output of the same step. */
  predicate Clash(d: Edge, e: Edge) {
    StringValue(d.from) == StringValue(e.from) && SameOutput(d, e)
  }

  lemma HandleKeyTells(d: Edge, e: Edge, keys: set<string>)
    requires ValidEdge(d, keys) && ValidEdge(e, keys) && ':' !in From(d) && ':' !in From(e)
    ensures HandleKey(d) == HandleKey(e) <==> Clash(d, e)
  {
    OutputsTell(d, e);
    if HandleKey(d) == HandleKey(e) { ColonSplits(From(d), HandleOf(d), From(e), HandleOf(e)); }
  }

  /** Both ends are different steps, and the kind is one of the fourteen. */
  ghost predicate GoodEdge(e: Edge, keys: set<string>) {
    && StringValue(e.from).Some? && StringValue(e.from).value in keys
    && StringValue(e.to).Some? && StringValue(e.to).value in keys
    && StringValue(e.from) != StringValue(e.to)
    && StringValue(e.kind).Some? && StringValue(e.kind).value in KINDS
  }

  lemma GoodMeansValid(e: Edge, keys: set<string>)
    ensures GoodEdge(e, keys) <==> ValidEdge(e, keys) && From(e) != To(e)
  {
    if StringValue(e.kind).Some? { KindsAreKnown(StringValue(e.kind).value); }
  }

  ghost predicate KeysTell(d: Edge, e: Edge) {
    Joined(d) && Joined(e) && (HandleKey(d) == HandleKey(e) <==> Clash(d, e))
  }

  lemma PairsTell(edges: seq<Edge>, keys: set<string>)
    requires forall i | 0 <= i < |edges| :: ValidEdge(edges[i], keys) && From(edges[i]) != To(edges[i])
    requires forall i, j | 0 <= i < j < |edges| :: KeysTell(edges[i], edges[j])
    ensures EdgesOk(edges, keys) <==>
      forall i, j | 0 <= i < j < |edges| :: EdgeId(edges[i]) != EdgeId(edges[j]) && !Clash(edges[i], edges[j])
  {
    if EdgesOk(edges, keys) {
      forall i, j | 0 <= i < j < |edges|
        ensures EdgeId(edges[i]) != EdgeId(edges[j]) && !Clash(edges[i], edges[j])
      {
        assert EdgeOkAt(edges, keys, j);
        assert KeysTell(edges[i], edges[j]);
      }
    } else if forall i, j | 0 <= i < j < |edges| :: EdgeId(edges[i]) != EdgeId(edges[j]) && !Clash(edges[i], edges[j]) {
      forall i | 0 <= i < |edges|
        ensures EdgeOkAt(edges, keys, i)
      {
        assert forall j | 0 <= j < i :: KeysTell(edges[j], edges[i]);
      }
    }
  }

  /** The edge checks, said without names of outputs: for keys without colons. */
  lemma EdgesOkExactly(edges: seq<Edge>, keys: set<string>)
    requires forall k | k in keys :: ':' !in k
    ensures EdgesOk(edges, keys) <==>
      && (forall e | e in edges :: GoodEdge(e, keys))
      && (forall i, j | 0 <= i < j < |edges| :: EdgeId(edges[i]) != EdgeId(edges[j]) && !Clash(edges[i], edges[j]))
  {
    if EdgesOk(edges, keys) {
      forall i | 0 <= i < |edges|
        ensures GoodEdge(edges[i], keys)
      {
        assert EdgeOkAt(edges, keys, i);
        GoodMeansValid(edges[i], keys);
      }
    }
    if forall e | e in edges :: GoodEdge(e, keys) {
      forall i | 0 <= i < |edges|
        ensures ValidEdge(edges[i], keys) && From(edges[i]) != To(edges[i])
      {
        assert edges[i] in edges;
        GoodMeansValid(edges[i], keys);
      }
      forall i, j | 0 <= i < j < |edges|
        ensures KeysTell(edges[i], edges[j])
      {
        HandleKeyTells(edges[i], edges[j], keys);
      }
      PairsTell(edges, keys);
    }
  }

  // ----- a SWITCH

  function CaseEdge(from: string, to: string, caseKey: string): Edge {
    Edge(Str(from), Str(to), Str("switch_case"), Str(caseKey))
  }

  lemma CaseEdgeReads(from: string, to: string, caseKey: string)
    requires from != "" && Tight(from) && to != "" && Tight(to) && caseKey != "" && Tight(caseKey)
    ensures var e := CaseEdge(from, to, caseKey);
      Joined(e) && From(e) == from && To(e) == to && KindOfEdge(e) == "switch_case" && HandleOf(e) == "case:" + caseKey
  {
    TrimTight(from);
    TrimTight(to);
    TrimTight(caseKey);
    TrimTight("switch_case");
    CaseHandle(CaseEdge(from, to, caseKey));
  }

  lemma NextEdgeReads(from: string, to: string)
    requires from != "" && Tight(from) && to != "" && Tight(to)
    ensures var e := Edge(Str(from), Str(to), Str("next"), Missing);
      Joined(e) && From(e) == from && To(e) == to && HandleOf(e) == "next"
  {
    TrimTight(from);
    TrimTight(to);
    TrimTight("next");
  }

  /** With colons in keys, a case of one step takes the output of another step. */
  lemma CaseTakesOutput(key: string, x: string, y: string)
    requires key != "" && Tight(key) && Tight(x) && Tight(y) && x != "" && y != ""
    ensures var d, e := CaseEdge(key, x, "next"), Edge(Str(key + ":case"), Str(y), Str("next"), Missing);
      && Joined(d) && Joined(e) && HandleKey(d) == HandleKey(e) && From(d) != From(e)
  {
    CaseEdgeReads(key, x, "next");
    NextEdgeReads(key + ":case", y);
    assert key + ":" + ("case:" + "next") == (key + ":case") + ":" + "next";
    assert |key| != |key + ":case"|;
  }
}
