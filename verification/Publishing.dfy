/**
 Publishing workflow versions of one organization. EXECUTE_WORKFLOW steps make one workflow
 call another; publishing must never let the calls of the active versions form a cycle.
 */
module Publishing {
  import opened Text
  import opened Digraph

  datatype Policy = Published | Pinned(versionId: string)

  /** An EXECUTE_WORKFLOW step. `target` and `policy` are absent when the configuration does not give one. */
  datatype Call = Call(target: Option<string>, policy: Option<Policy>, timeoutOk: bool)

  datatype Status = Draft | Active | Archived

  /** `otherwiseValid`: the definition passes the checks that do not look at other workflows. */
  datatype Version = Version(workflowId: string, status: Status, activated: bool, calls: seq<Call>,
      otherwiseValid: bool)

  /** `workflows` maps each workflow to its active version. */
  datatype Db = Db(workflows: map<string, Option<string>>, versions: map<string, Version>)

  function ActiveCalls(db: Db, w: string): seq<Call> {
    if w in db.workflows && db.workflows[w].Some? && db.workflows[w].value in db.versions
    then db.versions[db.workflows[w].value].calls
    else []
  }

  function TargetsOf(calls: seq<Call>): set<string> {
    set c | c in calls && c.target.Some? :: c.target.value
  }

  /** Who calls whom, according to the active versions. */
  function CallGraph(db: Db): Arcs {
    set w, t | w in db.workflows && t in TargetsOf(ActiveCalls(db, w)) :: (w, t)
  }

  // ----- the cycle check

  /** No path from `w` meets an ancestor or visits a workflow twice. */
  ghost predicate SafeFrom(g: Arcs, w: string, ancestry: set<string>) {
    forall p | IsPath(g, p) && p[0] == w :: Distinct(p) && Elems(p) !! ancestry
  }

  lemma SafeStep(g: Arcs, w: string, ancestry: set<string>)
    requires w !in ancestry
    requires forall t | (w, t) in g :: SafeFrom(g, t, ancestry + {w})
    ensures SafeFrom(g, w, ancestry)
  {
    forall p | IsPath(g, p) && p[0] == w
      ensures Distinct(p) && Elems(p) !! ancestry
    {
      if |p| > 1 {
        assert (p[0], p[1]) in g;
        SlicePath(g, p, 1, |p| - 1);
        var q := p[1..|p| - 1 + 1];
        assert Elems(q) !! ancestry + {w};
        assert forall i | 0 < i < |p| :: p[i] == q[i - 1] && p[i] in Elems(q);
      }
    }
  }

  lemma PrependPath(g: Arcs, w: string, q: seq<string>)
    requires IsPath(g, q) && (w, q[0]) in g
    ensures IsPath(g, [w] + q)
  {
    var p := [w] + q;
    forall i, j | 0 <= i < j < |p| && j == i + 1
      ensures (p[i], p[j]) in g
    {
      if i > 0 { assert p[i] == q[i - 1] && p[j] == q[j - 1]; }
    }
  }

  lemma DistinctTail(w: string, q: seq<string>, ancestry: set<string>)
    requires Distinct([w] + q) && Elems([w] + q) !! ancestry
    ensures Distinct(q) && Elems(q) !! ancestry + {w}
  {
    var p := [w] + q;
    assert p[0] == w;
    forall i | 0 <= i < |q|
      ensures q[i] == p[i + 1] && q[i] != w && q[i] in Elems(p)
    {
      assert p[i + 1] in Elems(p);
    }
  }

  lemma SafeTail(g: Arcs, w: string, ancestry: set<string>, t: string)
    requires SafeFrom(g, w, ancestry) && (w, t) in g
    ensures w !in ancestry && SafeFrom(g, t, ancestry + {w})
  {
    assert IsPath(g, [w]) && w in Elems([w]);
    forall q | IsPath(g, q) && q[0] == t
      ensures Distinct(q) && Elems(q) !! ancestry + {w}
    {
      PrependPath(g, w, q);
      DistinctTail(w, q, ancestry);
    }
  }

  /** The recursive check. It ends because the ancestry grows within the existing workflows. */
  method AssertNoPublishedCycle(db: Db, w: string, ancestry: set<string>) returns (ok: bool)
    ensures ok <==> SafeFrom(CallGraph(db), w, ancestry)
    decreases db.workflows.Keys - ancestry
  {
    ghost var g := CallGraph(db);
    if w in ancestry {
      assert IsPath(g, [w]) && w in Elems([w]);
      return false;
    }
    var calls := ActiveCalls(db, w);
    for i := 0 to |calls|
      invariant forall j | 0 <= j < i && calls[j].target.Some? :: SafeFrom(g, calls[j].target.value, ancestry + {w})
    {
      if calls[i].target.Some? {
        var t := calls[i].target.value;
        assert calls[i] in calls && t in TargetsOf(calls);
        assert (w, t) in g;
        ok := AssertNoPublishedCycle(db, t, ancestry + {w});
        if !ok {
          if SafeFrom(g, w, ancestry) { SafeTail(g, w, ancestry, t); }
          return;
        }
      }
    }
    SafeStep(g, w, ancestry);
    ok := true;
  }

  lemma SafeDoesNotReach(g: Arcs, t: string, w: string)
    ensures SafeFrom(g, t, {w}) ==> !Reaches(g, t, w)
  {
    forall p | PathBetween(g, p, t, w)
      ensures !SafeFrom(g, t, {w})
    {
      assert w in Elems(p) * {w};
    }
  }

  /** In an acyclic graph the check just asks whether the target leads back to the source. */
  lemma SafeMeansUnreachable(g: Arcs, t: string, w: string)
    requires !HasCycle(g)
    ensures SafeFrom(g, t, {w}) <==> !Reaches(g, t, w)
  {
    SafeDoesNotReach(g, t, w);
    if !Reaches(g, t, w) {
      forall p | IsPath(g, p) && p[0] == t
        ensures Distinct(p) && Elems(p) !! {w}
      {
        AcyclicPathDistinct(g, p);
        forall i | 0 <= i < |p|
          ensures p[i] != w
        {
          ReachesAlong(g, p, 0, i);
        }
      }
    }
  }

  // ----- replacing the calls of one workflow

  function Replaced(g: Arcs, w: string, targets: set<string>): Arcs {
    (set a | a in g && a.0 != w) + (set t | t in targets :: (w, t))
  }

  /** A path to `w` that stops at its first `w` uses no arc out of `w`. */
  lemma {:induction false} ReachesUpTo(g: Arcs, h: Arcs, p: seq<string>, w: string)
    requires IsPath(g, p) && p[|p| - 1] == w
    requires forall a | a in g && a.0 != w :: a in h
    ensures Reaches(h, p[0], w)
    decreases |p|
  {
    if p[0] == w {
      ReachesSelf(h, w);
    } else {
      assert (p[0], p[1]) in g;
      SlicePath(g, p, 1, |p| - 1);
      var q := p[1..|p| - 1 + 1];
      ReachesUpTo(g, h, q, w);
      ReachesArc(h, p[0], p[1]);
      ReachesTransitive(h, p[0], p[1], w);
    }
  }

  lemma ReachesSame(g: Arcs, w: string, targets: set<string>, t: string)
    ensures Reaches(g, t, w) <==> Reaches(Replaced(g, w, targets), t, w)
  {
    if Reaches(g, t, w) {
      var p :| PathBetween(g, p, t, w);
      ReachesUpTo(g, Replaced(g, w, targets), p, w);
    }
    if Reaches(Replaced(g, w, targets), t, w) {
      var p :| PathBetween(Replaced(g, w, targets), p, t, w);
      ReachesUpTo(Replaced(g, w, targets), g, p, w);
    }
  }

  lemma BackCallCloses(g: Arcs, w: string, targets: set<string>, t: string)
    requires t in targets && Reaches(g, t, w)
    ensures HasCycle(Replaced(g, w, targets))
  {
    ReachesSame(g, w, targets, t);
    assert (w, t) in Replaced(g, w, targets);
    CycleBack(Replaced(g, w, targets), w, t);
  }

  lemma CycleIsOld(g: Arcs, w: string, targets: set<string>, p: seq<string>)
    requires IsCycle(Replaced(g, w, targets), p) && forall i | 0 <= i < |p| - 1 :: p[i] != w
    ensures IsCycle(g, p)
  {
    forall i, j | 0 <= i < j < |p| && j == i + 1
      ensures (p[i], p[j]) in g
    {
      assert (p[i], p[j]) in Replaced(g, w, targets) && p[i] != w;
    }
  }

  lemma CycleHasCause(g: Arcs, w: string, targets: set<string>) returns (t: string)
    requires !HasCycle(g) && HasCycle(Replaced(g, w, targets))
    ensures t in targets && Reaches(g, t, w)
  {
    var h := Replaced(g, w, targets);
    var p :| IsCycle(h, p);
    if forall i | 0 <= i < |p| - 1 :: p[i] != w { CycleIsOld(g, w, targets, p); }
    var i :| 0 <= i < |p| - 1 && p[i] == w;
    t := p[i + 1];
    assert (p[i], t) in h;
    ReachesAlong(h, p, i + 1, |p| - 1);
    ReachesAlong(h, p, 0, i);
    ReachesTransitive(h, t, p[0], w);
    ReachesSame(g, w, targets, t);
  }

  /** Replacing the calls of `w` keeps the graph acyclic exactly when no new target leads back to `w`. */
  lemma ReplacedAcyclic(g: Arcs, w: string, targets: set<string>)
    requires !HasCycle(g)
    ensures !HasCycle(Replaced(g, w, targets)) <==> forall t | t in targets :: !Reaches(g, t, w)
  {
    if HasCycle(Replaced(g, w, targets)) {
      var t := CycleHasCause(g, w, targets);
    }
    forall t | t in targets && Reaches(g, t, w)
      ensures HasCycle(Replaced(g, w, targets))
    {
      BackCallCloses(g, w, targets, t);
    }
  }

  // ----- publishing

  ghost predicate VersionIsPublished(db: Db, target: string, policy: Policy)
    requires target in db.workflows
  {
    var id := if policy.Pinned? then Some(policy.versionId) else db.workflows[target];
    && id.Some? && id.value in db.versions
    && db.versions[id.value].workflowId == target && db.versions[id.value].activated &&
        db.versions[id.value].status != Draft
  }

  /** What publishing asks of one call made by workflow `w`. */
  ghost predicate CallOk(db: Db, w: string, c: Call) {
    && c.target.Some? && c.policy.Some? && c.timeoutOk
    && (c.policy.value.Pinned? ==> c.policy.value.versionId != "")
    && c.target.value != w && c.target.value in db.workflows
    && VersionIsPublished(db, c.target.value, c.policy.value)
    && SafeFrom(CallGraph(db), c.target.value, {w})
  }

  ghost predicate CallsOk(db: Db, w: string, calls: seq<Call>) {
    forall i | 0 <= i < |calls| :: CallOk(db, w, calls[i])
  }

  method ValidateSubworkflowReferences(db: Db, w: string, calls: seq<Call>) returns (ok: bool)
    ensures ok <==> CallsOk(db, w, calls)
  {
    for i := 0 to |calls|
      invariant forall j | 0 <= j < i :: CallOk(db, w, calls[j])
    {
      var c := calls[i];
      if c.target.None? || c.policy.None? || !c.timeoutOk { return false; }
      if c.policy.value.Pinned? && c.policy.value.versionId == "" { return false; }
      if c.target.value == w || c.target.value !in db.workflows { return false; }
      var id := if c.policy.value.Pinned? then Some(c.policy.value.versionId) else db.workflows[c.target.value];
      if id.None? || id.value !in db.versions { return false; }
      var v := db.versions[id.value];
      if v.workflowId != c.target.value || !v.activated || v.status == Draft { return false; }
      ok := AssertNoPublishedCycle(db, c.target.value, {w});
      if !ok { return; }
    }
    ok := true;
  }

  ghost predicate Publishable(db: Db, w: string, v: string) {
    && w in db.workflows && v in db.versions && db.versions[v].workflowId == w
    && db.versions[v].status == Draft && !db.versions[v].activated
    && db.versions[v].otherwiseValid && CallsOk(db, w, db.versions[v].calls)
  }

  function ArchiveActive(versions: map<string, Version>, w: string): map<string, Version> {
    map id | id in versions ::
      if versions[id].workflowId == w && versions[id].status == Active
      then versions[id].(status := Archived) else versions[id]
  }

  /** Archive what was active and make `v` the active version of `w`. */
  function Publish(db: Db, w: string, v: string): Db
    requires v in db.versions
  {
    Db(db.workflows[w := Some(v)],
        ArchiveActive(db.versions, w)[v := db.versions[v].(status := Active, activated := true)])
  }

  /** A version is active exactly when its workflow points to it, and only drafts were never activated. */
  ghost predicate Consistent(db: Db) {
    && (forall v | v in db.versions :: db.versions[v].workflowId in db.workflows)
    && (forall v | v in db.versions :: db.versions[v].activated <==> db.versions[v].status != Draft)
    && (forall w | w in db.workflows && db.workflows[w].Some? ::
          db.workflows[w].value in db.versions && db.versions[db.workflows[w].value].workflowId == w)
    && (forall v | v in db.versions ::
        db.versions[v].status == Active <==> db.workflows[db.versions[v].workflowId] == Some(v))
  }

  ghost predicate Good(db: Db) {
    Consistent(db) && !HasCycle(CallGraph(db))
  }

  lemma PublishReplacesCalls(db: Db, w: string, v: string)
    requires Consistent(db) && v in db.versions && db.versions[v].workflowId == w
    ensures CallGraph(Publish(db, w, v)) == Replaced(CallGraph(db), w, TargetsOf(db.versions[v].calls))
  {
    var after := Publish(db, w, v);
    forall a | a in db.workflows
      ensures ActiveCalls(after, a) == if a == w then db.versions[v].calls else ActiveCalls(db, a)
    {
    }
    assert w in after.workflows;
    forall a, t
      ensures (a, t) in CallGraph(after) <==> (a, t) in Replaced(CallGraph(db), w, TargetsOf(db.versions[v].calls))
    {
      assert (a, t) in CallGraph(after) <==> a in after.workflows && t in TargetsOf(ActiveCalls(after, a));
      assert (a, t) in CallGraph(db) <==> a in db.workflows && t in TargetsOf(ActiveCalls(db, a));
    }
  }

  /** Among versions that meet every other demand, the cycle check rejects exactly those that would close a cycle. */
  lemma CheckIsExact(db: Db, w: string, v: string)
    requires Good(db) && v in db.versions && db.versions[v].workflowId == w
    ensures !HasCycle(CallGraph(Publish(db, w, v))) <==>
      forall c | c in db.versions[v].calls && c.target.Some? :: SafeFrom(CallGraph(db), c.target.value, {w})
  {
    var g, calls := CallGraph(db), db.versions[v].calls;
    PublishReplacesCalls(db, w, v);
    ReplacedAcyclic(g, w, TargetsOf(calls));
    forall t { SafeMeansUnreachable(g, t, w); }
    if forall c | c in calls && c.target.Some? :: SafeFrom(g, c.target.value, {w}) {
      forall t | t in TargetsOf(calls)
        ensures !Reaches(g, t, w)
      {
        var c :| c in calls && c.target.Some? && c.target.value == t;
      }
    }
  }

  lemma PublishIsConsistent(db: Db, w: string, v: string)
    requires Consistent(db) && w in db.workflows && v in db.versions && db.versions[v].workflowId == w
    requires db.versions[v].status == Draft
    ensures Consistent(Publish(db, w, v))
  {
  }

  lemma PublishKeepsGood(db: Db, w: string, v: string)
    requires Good(db) && Publishable(db, w, v)
    ensures Good(Publish(db, w, v))
  {
    PublishIsConsistent(db, w, v);
    var calls := db.versions[v].calls;
    forall c | c in calls && c.target.Some?
      ensures SafeFrom(CallGraph(db), c.target.value, {w})
    {
      var i :| 0 <= i < |calls| && calls[i] == c;
      assert CallOk(db, w, calls[i]);
    }
    CheckIsExact(db, w, v);
  }

  // ----- every history

  datatype Action =
    | CreateWorkflow(w: string)
    | CreateVersion(v: string, w: string, calls: seq<Call>, otherwiseValid: bool)
    | Activate(w: string, v: string)

  ghost function Apply(db: Db, action: Action): Db {
    match action
    case CreateWorkflow(w) => if w in db.workflows then db else db.(workflows := db.workflows[w := None])
    case CreateVersion(v, w, calls, ok) =>
      if w !in db.workflows || v in db.versions then db
      else db.(versions := db.versions[v := Version(w, Draft, false, calls, ok)])
    case Activate(w, v) => if Publishable(db, w, v) then Publish(db, w, v) else db
  }

  ghost function ApplyAll(db: Db, actions: seq<Action>): Db {
    if actions == [] then db else Apply(ApplyAll(db, actions[..|actions| - 1]), actions[|actions| - 1])
  }

  lemma SameCalls(db: Db, after: Db)
    requires db.workflows.Keys <= after.workflows.Keys
    requires forall w | w in after.workflows :: ActiveCalls(after, w) == ActiveCalls(db, w)
    ensures CallGraph(after) == CallGraph(db)
  {
    forall a, t
      ensures (a, t) in CallGraph(after) <==> (a, t) in CallGraph(db)
    {
      assert (a, t) in CallGraph(after) <==> a in after.workflows && t in TargetsOf(ActiveCalls(after, a));
      assert (a, t) in CallGraph(db) <==> a in db.workflows && t in TargetsOf(ActiveCalls(db, a));
    }
  }

  lemma ApplyKeepsGood(db: Db, action: Action)
    requires Good(db)
    ensures Good(Apply(db, action))
  {
    match action
    case CreateWorkflow(w) => SameCalls(db, Apply(db, action));
    case CreateVersion(v, w, calls, ok) => SameCalls(db, Apply(db, action));
    case Activate(w, v) => if Publishable(db, w, v) { PublishKeepsGood(db, w, v); }
  }

  /** After any sequence of actions the calls of the active versions are acyclic. */
  lemma {:induction false} AlwaysAcyclic(actions: seq<Action>)
    ensures Good(ApplyAll(Db(map[], map[]), actions))
  {
    if actions == [] {
      assert CallGraph(Db(map[], map[])) == {};
      NoArcsNoCycle();
    } else {
      AlwaysAcyclic(actions[..|actions| - 1]);
      ApplyKeepsGood(ApplyAll(Db(map[], map[]), actions[..|actions| - 1]), actions[|actions| - 1]);
    }
  }

  // ----- what published versions call

  /** The version a call selects: a pinned one, or the active one of its target. */
  function Selected(db: Db, c: Call): Option<string> {
    match c.policy
    case Some(Pinned(id)) => if id == "" then None else Some(id)
    case Some(Published) =>
      if c.target.Some? && c.target.value in db.workflows then db.workflows[c.target.value] else None
    case None => None
  }

  /** The call names another workflow, and selects one of its versions that has been published. */
  ghost predicate Answered(db: Db, w: string, c: Call) {
    && c.target.Some? && c.target.value != w && c.target.value in db.workflows && c.timeoutOk
    && Selected(db, c).Some? && Selected(db, c).value in db.versions
    && var v := db.versions[Selected(db, c).value];
       v.workflowId == c.target.value && v.activated && v.status != Draft
  }

  /** Every version that was ever published is valid, and all its calls are answered. */
  ghost predicate Answering(db: Db) {
    forall v | v in db.versions && db.versions[v].activated ::
      && db.versions[v].otherwiseValid
      && forall c | c in db.versions[v].calls :: Answered(db, db.versions[v].workflowId, c)
  }

  /** `after` has all that `db` has: published versions stay published, and active workflows keep an active version. */
  ghost predicate Extends(db: Db, after: Db) {
    && (forall w | w in db.workflows :: w in after.workflows && (db.workflows[w].Some? ==> after.workflows[w].Some?))
    && (forall v | v in db.versions ::
          && v in after.versions && after.versions[v].workflowId == db.versions[v].workflowId
          && after.versions[v].calls == db.versions[v].calls
          && after.versions[v].otherwiseValid == db.versions[v].otherwiseValid
          && (db.versions[v].activated ==> after.versions[v].activated && after.versions[v].status != Draft))
  }

  lemma AnsweredStays(db: Db, after: Db, w: string, c: Call)
    requires Answered(db, w, c) && Extends(db, after) && Consistent(db) && Consistent(after)
    ensures Answered(after, w, c)
  {
  }

  lemma PublishExtends(db: Db, w: string, v: string)
    requires Consistent(db) && v in db.versions && db.versions[v].workflowId == w && w in db.workflows
    ensures Extends(db, Publish(db, w, v))
  {
  }

  lemma CheckedIsAnswered(db: Db, w: string, v: string, c: Call)
    requires Consistent(db) && Publishable(db, w, v) && c in db.versions[v].calls
    ensures Answered(db, w, c)
  {
    var calls := db.versions[v].calls;
    var i :| 0 <= i < |calls| && calls[i] == c;
    assert CallOk(db, w, calls[i]);
  }

  lemma AnsweredIsOk(db: Db, w: string, c: Call)
    requires Answered(db, w, c) && SafeFrom(CallGraph(db), c.target.value, {w})
    ensures CallOk(db, w, c)
  {
  }

  /** A version is published exactly when it is a valid draft, its calls are answered and they close no cycle. */
  lemma PublishedExactly(db: Db, w: string, v: string)
    requires Good(db)
    ensures Publishable(db, w, v) <==>
      && v in db.versions && db.versions[v].workflowId == w
      && !db.versions[v].activated && db.versions[v].otherwiseValid
      && (forall c | c in db.versions[v].calls :: Answered(db, w, c)) && !HasCycle(CallGraph(Publish(db, w, v)))
  {
    if v in db.versions && db.versions[v].workflowId == w {
      var calls := db.versions[v].calls;
      CheckIsExact(db, w, v);
      if Publishable(db, w, v) {
        PublishKeepsGood(db, w, v);
        forall c | c in calls { CheckedIsAnswered(db, w, v, c); }
      }
      if (forall c | c in calls :: Answered(db, w, c)) && !HasCycle(CallGraph(Publish(db, w, v))) {
        forall i | 0 <= i < |calls|
          ensures CallOk(db, w, calls[i])
        {
          assert calls[i] in calls;
          AnsweredIsOk(db, w, calls[i]);
        }
      }
    }
  }

  lemma ExtendingAnswers(db: Db, after: Db)
    requires Answering(db) && Extends(db, after) && Consistent(db) && Consistent(after)
    requires forall v | v in after.versions && after.versions[v].activated ::
      || (v in db.versions && db.versions[v].activated)
      || (v in db.versions && Publishable(db, db.versions[v].workflowId, v))
    ensures Answering(after)
  {
    forall v | v in after.versions && after.versions[v].activated
      ensures after.versions[v].otherwiseValid
      ensures forall c | c in after.versions[v].calls :: Answered(after, after.versions[v].workflowId, c)
    {
      var w := db.versions[v].workflowId;
      forall c | c in after.versions[v].calls
        ensures Answered(after, w, c)
      {
        if !db.versions[v].activated { CheckedIsAnswered(db, w, v, c); }
        AnsweredStays(db, after, w, c);
      }
    }
  }

  lemma ApplyKeepsAnswering(db: Db, action: Action)
    requires Good(db) && Answering(db)
    ensures Answering(Apply(db, action))
  {
    ApplyKeepsGood(db, action);
    match action
    case Activate(w, v) =>
      if Publishable(db, w, v) {
        PublishExtends(db, w, v);
        ExtendingAnswers(db, Publish(db, w, v));
      }
    case _ => ExtendingAnswers(db, Apply(db, action));
  }

  /** After any sequence of actions, every version that was ever published is valid and all its calls are answered. */
  lemma {:induction false} AlwaysAnswering(actions: seq<Action>)
    ensures Answering(ApplyAll(Db(map[], map[]), actions))
  {
    if actions != [] {
      var before := actions[..|actions| - 1];
      AlwaysAcyclic(before);
      AlwaysAnswering(before);
      ApplyKeepsAnswering(ApplyAll(Db(map[], map[]), before), actions[|actions| - 1]);
    }
  }

  /** The stored rows, changed in place. */
  class Store {
    var workflows: map<string, Option<string>>
    var versions: map<string, Version>

    function Rows(): Db
      reads this
    {
      Db(workflows, versions)
    }

    ghost predicate Valid()
      reads this
    {
      Good(Rows())
    }

    constructor ()
      ensures Valid() && Rows() == Db(map[], map[])
    {
      workflows, versions := map[], map[];
      new;
      AlwaysAcyclic([]);
    }

    method Create(w: string)
      requires Valid()
      modifies this
      ensures Valid() && Rows() == Apply(old(Rows()), CreateWorkflow(w))
    {
      ApplyKeepsGood(Rows(), CreateWorkflow(w));
      if w !in workflows { workflows := workflows[w := None]; }
    }

    method CreateDraft(v: string, w: string, calls: seq<Call>, otherwiseValid: bool)
      requires Valid()
      modifies this
      ensures Valid() && Rows() == Apply(old(Rows()), CreateVersion(v, w, calls, otherwiseValid))
    {
      ApplyKeepsGood(Rows(), CreateVersion(v, w, calls, otherwiseValid));
      if w in workflows && v !in versions {
        versions := versions[v := Version(w, Draft, false, calls, otherwiseValid)];
      }
    }

    method ActivateVersion(w: string, v: string) returns (ok: bool)
      requires Valid()
      modifies this
      ensures Valid() && Rows() == Apply(old(Rows()), Activate(w, v))
      ensures ok <==> old(Publishable(Rows(), w, v))
    {
      ApplyKeepsGood(Rows(), Activate(w, v));
      if w !in workflows || v !in versions || versions[v].workflowId != w { return false; }
      if versions[v].status != Draft || versions[v].activated || !versions[v].otherwiseValid { return false; }
      ok := ValidateSubworkflowReferences(Rows(), w, versions[v].calls);
      if !ok { return; }
      versions := ArchiveActive(versions, w);
      versions := versions[v := versions[v].(status := Active, activated := true)];
      workflows := workflows[w := Some(v)];
    }
  }
}
