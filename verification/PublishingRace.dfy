/**
 Publishing as the code carries it out: a version is checked first and published by a later transaction, and any
 number of attempts interleave. The transaction looks at the version's own status again, not at the calls.
 */
module PublishingRace {
  import opened Text
  import opened Digraph
  import opened Publishing

  /** `since`: the workflows published between the check and the transaction. No decision depends on it. */
  datatype Attempt = Checked(w: string, v: string, since: set<string>) | Done(ok: bool)

  datatype State = State(db: Db, attempts: map<nat, Attempt>)

  datatype Event = Create(action: Action) | Check(c: nat, w: string, v: string) | Commit(c: nat)

  const EMPTY := State(Db(map[], map[]), map[])

  function Note(attempts: map<nat, Attempt>, w: string): map<nat, Attempt> {
    map c | c in attempts ::
      if attempts[c].Checked? then attempts[c].(since := attempts[c].since + {w}) else attempts[c]
  }

  /** The transaction still finds a draft. */
  predicate Publishes(s: State, c: nat) {
    && c in s.attempts && s.attempts[c].Checked? && s.attempts[c].v in s.db.versions
    && s.db.versions[s.attempts[c].v].status == Draft && !s.db.versions[s.attempts[c].v].activated
  }

  function CommitStep(s: State, c: nat): State {
    if Publishes(s, c) then
      var w, v := s.attempts[c].w, s.attempts[c].v;
      State(Publish(s.db, w, v), Note(s.attempts, w)[c := Done(true)])
    else if c in s.attempts && s.attempts[c].Checked? then s.(attempts := s.attempts[c := Done(false)])
    else s
  }

  ghost function CheckStep(s: State, c: nat, w: string, v: string): State {
    if c in s.attempts then s
    else s.(attempts := s.attempts[c := if Publishable(s.db, w, v) then Checked(w, v, {}) else Done(false)])
  }

  ghost function Do(s: State, e: Event): State {
    match e
    case Create(action) => if action.Activate? then s else s.(db := Apply(s.db, action))
    case Check(c, w, v) => CheckStep(s, c, w, v)
    case Commit(c) => CommitStep(s, c)
  }

  ghost function DoAll(s: State, es: seq<Event>): State {
    if es == [] then s else Do(DoAll(s, es[..|es| - 1]), es[|es| - 1])
  }

  // ----- what every step keeps

  /** The calls of the workflows outside `changed`. */
  function Unchanged(g: Arcs, changed: set<string>): Arcs {
    set a | a in g && a.0 !in changed
  }

  /** No new target leads back to `w` along calls that are as they were at the check. */
  ghost predicate AttemptOk(db: Db, a: Attempt) {
    a.Checked? ==>
      && a.w in db.workflows && a.v in db.versions && db.versions[a.v].workflowId == a.w
      && forall t | t in TargetsOf(db.versions[a.v].calls) ::
           !Reaches(Unchanged(CallGraph(db), a.since + {a.w}), t, a.w)
  }

  ghost predicate Inv(s: State) {
    Consistent(s.db) && forall c | c in s.attempts :: AttemptOk(s.db, s.attempts[c])
  }

  lemma ReachesInMore(g: Arcs, h: Arcs, a: string, b: string)
    requires g <= h && Reaches(g, a, b)
    ensures Reaches(h, a, b)
  {
    var p :| PathBetween(g, p, a, b);
    assert PathBetween(h, p, a, b);
  }

  /** An attempt stays as good when its version stays and calls change only where it is noted. */
  lemma AttemptStays(db: Db, after: Db, a: Attempt, b: Attempt)
    requires AttemptOk(db, a) && a.Checked? && b.Checked? && b.w == a.w && b.v == a.v
    requires db.workflows.Keys <= after.workflows.Keys
    requires a.v in after.versions && after.versions[a.v].workflowId == a.w
    requires after.versions[a.v].calls == db.versions[a.v].calls
    requires Unchanged(CallGraph(after), b.since + {a.w}) <= Unchanged(CallGraph(db), a.since + {a.w})
    ensures AttemptOk(after, b)
  {
    forall t | t in TargetsOf(after.versions[a.v].calls)
      ensures !Reaches(Unchanged(CallGraph(after), b.since + {a.w}), t, a.w)
    {
      if Reaches(Unchanged(CallGraph(after), b.since + {a.w}), t, a.w) {
        ReachesInMore(Unchanged(CallGraph(after), b.since + {a.w}), Unchanged(CallGraph(db), a.since + {a.w}), t, a.w);
      }
    }
  }

  lemma CheckKeeps(s: State, c: nat, w: string, v: string)
    requires Inv(s)
    ensures Inv(CheckStep(s, c, w, v))
  {
    if Publishable(s.db, w, v) {
      var g, calls := CallGraph(s.db), s.db.versions[v].calls;
      forall t | t in TargetsOf(calls)
        ensures !Reaches(Unchanged(g, {} + {w}), t, w)
      {
        var i :| 0 <= i < |calls| && calls[i].target == Some(t);
        assert CallOk(s.db, w, calls[i]);
        SafeDoesNotReach(g, t, w);
        if Reaches(Unchanged(g, {} + {w}), t, w) { ReachesInMore(Unchanged(g, {} + {w}), g, t, w); }
      }
    }
  }

  lemma CommitKeeps(s: State, c: nat)
    requires Inv(s)
    ensures Inv(CommitStep(s, c))
  {
    if Publishes(s, c) {
      var w, v := s.attempts[c].w, s.attempts[c].v;
      assert AttemptOk(s.db, s.attempts[c]);
      var after := CommitStep(s, c);
      PublishIsConsistent(s.db, w, v);
      PublishReplacesCalls(s.db, w, v);
      forall d | d in after.attempts
        ensures AttemptOk(after.db, after.attempts[d])
      {
        if after.attempts[d].Checked? {
          assert AttemptOk(s.db, s.attempts[d]);
          AttemptStays(s.db, after.db, s.attempts[d], after.attempts[d]);
        }
      }
    }
  }

  lemma CreateSame(db: Db, action: Action)
    requires Consistent(db) && !action.Activate?
    ensures CallGraph(Apply(db, action)) == CallGraph(db)
  {
    SameCalls(db, Apply(db, action));
  }

  lemma CreateChanges(db: Db, action: Action)
    requires Consistent(db) && !action.Activate?
    ensures var after := Apply(db, action);
      && Consistent(after) && CallGraph(after) == CallGraph(db) && db.workflows.Keys <= after.workflows.Keys
      && forall v | v in db.versions :: v in after.versions && after.versions[v] == db.versions[v]
  {
    CreateSame(db, action);
  }

  lemma CreateKeeps(s: State, after: Db)
    requires Inv(s) && Consistent(after) && CallGraph(after) == CallGraph(s.db)
    requires s.db.workflows.Keys <= after.workflows.Keys
    requires forall v | v in s.db.versions :: v in after.versions && after.versions[v] == s.db.versions[v]
    ensures Inv(s.(db := after))
  {
    forall d | d in s.attempts
      ensures AttemptOk(after, s.attempts[d])
    {
      assert AttemptOk(s.db, s.attempts[d]);
      if s.attempts[d].Checked? { AttemptStays(s.db, after, s.attempts[d], s.attempts[d]); }
    }
  }

  lemma DoKeeps(s: State, e: Event)
    requires Inv(s)
    ensures Inv(Do(s, e))
  {
    match e
    case Create(action) =>
      if !action.Activate? {
        CreateChanges(s.db, action);
        CreateKeeps(s, Apply(s.db, action));
      }
    case Check(c, w, v) => CheckKeeps(s, c, w, v);
    case Commit(c) => CommitKeeps(s, c);
  }

  lemma {:induction false} AlwaysInv(es: seq<Event>)
    ensures Inv(DoAll(EMPTY, es))
  {
    if es != [] {
      AlwaysInv(es[..|es| - 1]);
      DoKeeps(DoAll(EMPTY, es[..|es| - 1]), es[|es| - 1]);
    }
  }

  // ----- exactly when a transaction closes a cycle

  /** A new target leads to a workflow published since the check, and that one leads back. */
  ghost predicate Crossed(s: State, c: nat)
    requires Publishes(s, c)
  {
    var Checked(w, v, since) := s.attempts[c];
    exists t, u | t in TargetsOf(s.db.versions[v].calls) && u in since - {w} ::
      Reaches(CallGraph(s.db), t, u) && Reaches(CallGraph(s.db), u, w)
  }

  /** A path to `w` keeps to unchanged calls or meets a changed workflow. */
  lemma {:induction false} MeetsChanged(g: Arcs, changed: set<string>, p: seq<string>, w: string) returns (u: string)
    requires IsPath(g, p) && p[|p| - 1] == w && !Reaches(Unchanged(g, changed + {w}), p[0], w)
    ensures u in changed - {w} && Reaches(g, p[0], u) && Reaches(g, u, w)
    decreases |p|
  {
    var h := Unchanged(g, changed + {w});
    if p[0] == w {
      ReachesSelf(h, w);
    }
    u := p[0];
    assert PathBetween(g, p, p[0], w);
    if p[0] in changed {
      ReachesSelf(g, u);
    } else {
      assert (p[0], p[1]) in g && (p[0], p[1]) in h;
      SlicePath(g, p, 1, |p| - 1);
      var q := p[1..|p| - 1 + 1];
      ReachesArc(h, p[0], p[1]);
      if Reaches(h, p[1], w) { ReachesTransitive(h, p[0], p[1], w); }
      u := MeetsChanged(g, changed, q, w);
      ReachesArc(g, p[0], p[1]);
      ReachesTransitive(g, p[0], p[1], u);
    }
  }

  lemma CrossedMeansBack(s: State, c: nat)
    requires Inv(s) && Publishes(s, c)
    ensures Crossed(s, c) <==>
      exists t :: t in TargetsOf(s.db.versions[s.attempts[c].v].calls) && Reaches(CallGraph(s.db), t, s.attempts[c].w)
  {
    var g, w, v, since := CallGraph(s.db), s.attempts[c].w, s.attempts[c].v, s.attempts[c].since;
    assert AttemptOk(s.db, s.attempts[c]);
    forall t | t in TargetsOf(s.db.versions[v].calls) && Reaches(g, t, w)
      ensures Crossed(s, c)
    {
      var p :| PathBetween(g, p, t, w);
      var u := MeetsChanged(g, since, p, w);
    }
    forall t, u | t in TargetsOf(s.db.versions[v].calls) && Reaches(g, t, u) && Reaches(g, u, w)
      ensures Reaches(g, t, w)
    {
      ReachesTransitive(g, t, u, w);
    }
  }

  /** The transaction keeps acyclic calls acyclic if and only if it is not crossed. */
  lemma CommitExactly(es: seq<Event>, c: nat)
    requires var s := DoAll(EMPTY, es); Publishes(s, c) && !HasCycle(CallGraph(s.db))
    ensures var s := DoAll(EMPTY, es); HasCycle(CallGraph(CommitStep(s, c).db)) <==> Crossed(s, c)
  {
    var s := DoAll(EMPTY, es);
    AlwaysInv(es);
    assert AttemptOk(s.db, s.attempts[c]);
    var w, v := s.attempts[c].w, s.attempts[c].v;
    PublishReplacesCalls(s.db, w, v);
    ReplacedAcyclic(CallGraph(s.db), w, TargetsOf(s.db.versions[v].calls));
    CrossedMeansBack(s, c);
  }

  // ----- over whole runs

  ghost predicate StaysAcyclic(es: seq<Event>) {
    !HasCycle(CallGraph(DoAll(EMPTY, es).db)) && (es != [] ==> StaysAcyclic(es[..|es| - 1]))
  }

  ghost predicate NeverCrossed(es: seq<Event>) {
    es != [] ==>
      var before, e := es[..|es| - 1], es[|es| - 1];
      NeverCrossed(before) && !(e.Commit? && Publishes(DoAll(EMPTY, before), e.c) && Crossed(DoAll(EMPTY, before), e.c))
  }

  lemma OtherStepsKeepCalls(es: seq<Event>, e: Event)
    requires !(e.Commit? && Publishes(DoAll(EMPTY, es), e.c))
    ensures CallGraph(Do(DoAll(EMPTY, es), e).db) == CallGraph(DoAll(EMPTY, es).db)
  {
    AlwaysInv(es);
    if e.Create? && !e.action.Activate? { CreateChanges(DoAll(EMPTY, es).db, e.action); }
  }

  /** The calls stay acyclic throughout a run if and only if no transaction of the run is crossed. */
  lemma {:induction false} AcyclicExactly(es: seq<Event>)
    ensures StaysAcyclic(es) <==> NeverCrossed(es)
  {
    if es == [] {
      assert CallGraph(EMPTY.db) == {};
      NoArcsNoCycle();
    } else {
      var before, e := es[..|es| - 1], es[|es| - 1];
      AcyclicExactly(before);
      if StaysAcyclic(before) {
        if e.Commit? && Publishes(DoAll(EMPTY, before), e.c) {
          CommitExactly(before, e.c);
        } else {
          OtherStepsKeepCalls(before, e);
        }
      }
    }
  }

  // ----- a cycle

  lemma {:induction false} DoAllJoin(s: State, es: seq<Event>, fs: seq<Event>)
    ensures DoAll(s, es + fs) == DoAll(DoAll(s, es), fs)
  {
    if fs == [] {
      assert es + fs == es;
    } else {
      DoAllJoin(s, es, fs[..|fs| - 1]);
      assert (es + fs)[..|es + fs| - 1] == es + fs[..|fs| - 1];
    }
  }

  lemma DoTwo(s: State, d: Event, e: Event)
    ensures DoAll(s, [d, e]) == Do(Do(s, d), e)
  {
    assert [d, e][..1] == [d] && [d][..0] == [];
    assert DoAll(s, [d]) == Do(DoAll(s, []), d);
  }

  function CallTo(w: string): Call {
    Call(Some(w), Some(Published), true)
  }

  /** Two workflows with two versions each. */
  datatype Ids = Ids(a: string, b: string, a0: string, b0: string, a1: string, b1: string)

  predicate Different(n: Ids) {
    n.a != n.b && n.a0 != n.b0 && n.a0 != n.a1 && n.a0 != n.b1 && n.b0 != n.a1 && n.b0 != n.b1 && n.a1 != n.b1
  }

  function Empty(w: string, status: Status): Version {
    Version(w, status, status != Draft, [], true)
  }

  function Calling(w: string, t: string, status: Status): Version {
    Version(w, status, status != Draft, [CallTo(t)], true)
  }

  function Two(n: Ids): State {
    State(Db(map[n.a := None, n.b := None], map[n.a0 := Empty(n.a, Draft), n.b0 := Empty(n.b, Draft)]), map[])
  }

  /** Both are published without calls. */
  function Published2(n: Ids): State {
    State(Db(map[n.a := Some(n.a0), n.b := Some(n.b0)], map[n.a0 := Empty(n.a, Active), n.b0 := Empty(n.b, Active)]),
          map[0 := Done(true), 1 := Done(true)])
  }

  /** The new versions call each other. */
  function Drafted(n: Ids): Db {
    Db(map[n.a := Some(n.a0), n.b := Some(n.b0)],
       map[n.a0 := Empty(n.a, Active), n.b0 := Empty(n.b, Active),
           n.a1 := Calling(n.a, n.b, Draft), n.b1 := Calling(n.b, n.a, Draft)])
  }

  function CreateBoth(n: Ids): seq<Event> {
    [Create(CreateWorkflow(n.a)), Create(CreateWorkflow(n.b))]
      + [Create(CreateVersion(n.a0, n.a, [], true)), Create(CreateVersion(n.b0, n.b, [], true))]
  }

  function PublishBoth(n: Ids): seq<Event> {
    [Check(0, n.a, n.a0), Commit(0)] + [Check(1, n.b, n.b0), Commit(1)]
  }

  function DraftBoth(n: Ids): seq<Event> {
    [Create(CreateVersion(n.a1, n.a, [CallTo(n.b)], true)), Create(CreateVersion(n.b1, n.b, [CallTo(n.a)], true))]
  }

  function CheckThenCommit(n: Ids): seq<Event> {
    [Check(2, n.a, n.a1), Check(3, n.b, n.b1)] + [Commit(2), Commit(3)]
  }

  function Race(n: Ids): seq<Event> {
    CreateBoth(n) + PublishBoth(n) + DraftBoth(n) + CheckThenCommit(n)
  }

  lemma AfterCreate(n: Ids)
    requires Different(n)
    ensures DoAll(EMPTY, CreateBoth(n)) == Two(n)
  {
    var one, two := Create(CreateWorkflow(n.a)), Create(CreateWorkflow(n.b));
    var three, four := Create(CreateVersion(n.a0, n.a, [], true)), Create(CreateVersion(n.b0, n.b, [], true));
    var s := State(Db(map[n.a := None, n.b := None], map[]), map[]);
    DoAllJoin(EMPTY, [one, two], [three, four]);
    DoTwo(EMPTY, one, two);
    assert Do(Do(EMPTY, one), two) == s;
    DoTwo(s, three, four);
  }

  /** A draft without calls is checked and published at once. */
  lemma PublishAlone(s: State, c: nat, w: string, v: string)
    requires c !in s.attempts && w in s.db.workflows && v in s.db.versions && s.db.versions[v] == Empty(w, Draft)
    requires forall d | d in s.attempts :: s.attempts[d].Done?
    ensures DoAll(s, [Check(c, w, v), Commit(c)]) == State(Publish(s.db, w, v), s.attempts[c := Done(true)])
  {
    DoTwo(s, Check(c, w, v), Commit(c));
    var t := s.(attempts := s.attempts[c := Checked(w, v, {})]);
    assert CheckStep(s, c, w, v) == t;
    assert Note(t.attempts, w)[c := Done(true)] == s.attempts[c := Done(true)];
  }

  lemma AfterPublish(n: Ids)
    requires Different(n)
    ensures DoAll(Two(n), PublishBoth(n)) == Published2(n)
  {
    var s := State(Db(map[n.a := Some(n.a0), n.b := None], map[n.a0 := Empty(n.a, Active), n.b0 := Empty(n.b, Draft)]),
                   map[0 := Done(true)]);
    DoAllJoin(Two(n), [Check(0, n.a, n.a0), Commit(0)], [Check(1, n.b, n.b0), Commit(1)]);
    PublishAlone(Two(n), 0, n.a, n.a0);
    FirstPublished(n);
    PublishAlone(s, 1, n.b, n.b0);
    SecondPublished(n, s.db);
  }

  lemma FirstPublished(n: Ids)
    requires Different(n)
    ensures Publish(Two(n).db, n.a, n.a0) ==
      Db(map[n.a := Some(n.a0), n.b := None], map[n.a0 := Empty(n.a, Active), n.b0 := Empty(n.b, Draft)])
  {
  }

  lemma SecondPublished(n: Ids, db: Db)
    requires Different(n) && db.workflows == map[n.a := Some(n.a0), n.b := None]
    requires db.versions == map[n.a0 := Empty(n.a, Active), n.b0 := Empty(n.b, Draft)]
    ensures Publish(db, n.b, n.b0) == Published2(n).db
  {
  }

  lemma AfterDraft(n: Ids)
    requires Different(n)
    ensures DoAll(Published2(n), DraftBoth(n)) == State(Drafted(n), map[0 := Done(true), 1 := Done(true)])
  {
    DoTwo(Published2(n), Create(CreateVersion(n.a1, n.a, [CallTo(n.b)], true)),
          Create(CreateVersion(n.b1, n.b, [CallTo(n.a)], true)));
  }

  lemma NobodyCalls(n: Ids)
    requires Different(n)
    ensures CallGraph(Drafted(n)) == {}
  {
    var db := Drafted(n);
    assert forall w | w in db.workflows :: ActiveCalls(db, w) == [];
  }

  lemma FirstArc(g: Arcs, p: seq<string>)
    requires IsPath(g, p)
    ensures |p| == 1 || (p[0], p[1]) in g
  {
  }

  lemma SafeWithoutCalls(g: Arcs, t: string, w: string)
    requires g == {} && t != w
    ensures SafeFrom(g, t, {w})
  {
    forall p | IsPath(g, p) && p[0] == t
      ensures Distinct(p) && Elems(p) !! {w}
    {
      FirstArc(g, p);
    }
  }

  lemma BothPass(n: Ids)
    requires Different(n)
    ensures Publishable(Drafted(n), n.a, n.a1) && Publishable(Drafted(n), n.b, n.b1)
  {
    NobodyCalls(n);
    SafeWithoutCalls(CallGraph(Drafted(n)), n.b, n.a);
    SafeWithoutCalls(CallGraph(Drafted(n)), n.a, n.b);
  }

  lemma CommitPublishes(s: State, c: nat, u: string)
    requires Publishes(s, c) && u in s.db.versions && s.db.versions[u].workflowId != s.attempts[c].w
    requires u != s.attempts[c].v
    ensures var t, v := CommitStep(s, c), s.attempts[c].v;
      && t.db.workflows == s.db.workflows[s.attempts[c].w := Some(v)]
      && u in t.db.versions && t.db.versions[u] == s.db.versions[u]
      && v in t.db.versions && t.db.versions[v].calls == s.db.versions[v].calls
      && t.db.versions[v].workflowId == s.db.versions[v].workflowId
  {
  }

  lemma CommitLeaves(s: State, c: nat, d: nat)
    requires Publishes(s, c) && d in s.attempts && d != c && s.attempts[d].Checked?
    ensures var t := CommitStep(s, c);
      && d in t.attempts && t.attempts[d].Checked?
      && t.attempts[d].w == s.attempts[d].w && t.attempts[d].v == s.attempts[d].v
  {
  }

  lemma BothCheck(n: Ids, s: State)
    requires Different(n) && s.db == Drafted(n) && 2 !in s.attempts && 3 !in s.attempts
    ensures var t := DoAll(s, [Check(2, n.a, n.a1), Check(3, n.b, n.b1)]);
      && t.db == Drafted(n) && 2 in t.attempts && 3 in t.attempts
      && t.attempts[2] == Checked(n.a, n.a1, {}) && t.attempts[3] == Checked(n.b, n.b1, {})
  {
    DoTwo(s, Check(2, n.a, n.a1), Check(3, n.b, n.b1));
    BothPass(n);
  }

  lemma BothCommit(n: Ids, s: State)
    requires Different(n) && s.db == Drafted(n) && 2 in s.attempts && 3 in s.attempts
    requires s.attempts[2] == Checked(n.a, n.a1, {}) && s.attempts[3] == Checked(n.b, n.b1, {})
    ensures var db := DoAll(s, [Commit(2), Commit(3)]).db;
      && db.workflows == map[n.a := Some(n.a1), n.b := Some(n.b1)] && n.a1 in db.versions && n.b1 in db.versions
      && db.versions[n.a1].calls == [CallTo(n.b)] && db.versions[n.b1].calls == [CallTo(n.a)]
  {
    DoTwo(s, Commit(2), Commit(3));
    FirstCommit(n, s);
    CommitPublishes(CommitStep(s, 2), 3, n.a1);
  }

  lemma FirstCommit(n: Ids, s: State)
    requires Different(n) && s.db == Drafted(n) && 2 in s.attempts && 3 in s.attempts
    requires s.attempts[2] == Checked(n.a, n.a1, {}) && s.attempts[3] == Checked(n.b, n.b1, {})
    ensures var t := CommitStep(s, 2);
      && Publishes(t, 3) && t.attempts[3].w == n.b && t.attempts[3].v == n.b1
      && t.db.workflows == map[n.a := Some(n.a1), n.b := Some(n.b0)] && n.a1 in t.db.versions
      && t.db.versions[n.a1].calls == [CallTo(n.b)] && t.db.versions[n.a1].workflowId == n.a
      && t.db.versions[n.b1].calls == [CallTo(n.a)]
  {
    CommitPublishes(s, 2, n.b1);
    CommitLeaves(s, 2, 3);
  }

  lemma MutualCalls(db: Db, n: Ids)
    requires Different(n) && db.workflows == map[n.a := Some(n.a1), n.b := Some(n.b1)]
    requires n.a1 in db.versions && n.b1 in db.versions
    requires db.versions[n.a1].calls == [CallTo(n.b)] && db.versions[n.b1].calls == [CallTo(n.a)]
    ensures HasCycle(CallGraph(db))
  {
    var g := CallGraph(db);
    assert CallTo(n.b) in ActiveCalls(db, n.a) && CallTo(n.a) in ActiveCalls(db, n.b);
    assert n.b in TargetsOf(ActiveCalls(db, n.a)) && n.a in TargetsOf(ActiveCalls(db, n.b));
    assert (n.a, n.b) in g && (n.b, n.a) in g;
    assert IsCycle(g, [n.a, n.b, n.a]);
  }

  /** Two workflows whose new versions call each other are both checked before either is published. */
  lemma CycleIsReached(n: Ids)
    requires Different(n)
    ensures HasCycle(CallGraph(DoAll(EMPTY, Race(n)).db))
  {
    var s := State(Drafted(n), map[0 := Done(true), 1 := Done(true)]);
    DoAllJoin(EMPTY, CreateBoth(n) + PublishBoth(n) + DraftBoth(n), CheckThenCommit(n));
    DoAllJoin(EMPTY, CreateBoth(n) + PublishBoth(n), DraftBoth(n));
    DoAllJoin(EMPTY, CreateBoth(n), PublishBoth(n));
    AfterCreate(n);
    AfterPublish(n);
    AfterDraft(n);
    var t := DoAll(s, [Check(2, n.a, n.a1), Check(3, n.b, n.b1)]);
    DoAllJoin(s, [Check(2, n.a, n.a1), Check(3, n.b, n.b1)], [Commit(2), Commit(3)]);
    BothCheck(n, s);
    BothCommit(n, t);
    MutualCalls(DoAll(t, [Commit(2), Commit(3)]).db, n);
  }
}
