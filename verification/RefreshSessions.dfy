/**
 Rotation of refresh tokens. Every query and every transaction is one atomic step; any number
 of refresh calls interleave with logins, logouts and revocations.
 */
module RefreshSessions {
  import opened Text
  import opened Digraph

  datatype Session = Session(user: string, family: string, revoked: bool, replacedBy: Option<string>, expiresAt: int)

  type Table = map<string, Session>

  /** A presented token; `genuine` when it matches the stored hash of its session. */
  datatype Token = Token(sessionId: string, user: string, family: string, genuine: bool)

  datatype Outcome = Rotated(next: string) | Reuse | Expired | Invalid | Failed

  // ----- the queries and transactions

  function RevokeWhere(t: Table, chosen: Session -> bool): Table {
    map id | id in t :: if chosen(t[id]) then t[id].(revoked := true) else t[id]
  }

  function RevokeFamily(t: Table, family: string): Table {
    RevokeWhere(t, (s: Session) => s.family == family)
  }

  function RevokeUser(t: Table, user: string): Table {
    RevokeWhere(t, (s: Session) => s.user == user)
  }

  function RevokeOne(t: Table, id: string): Table {
    if id in t then t[id := t[id].(revoked := true)] else t
  }

  /** Logout and single revocation: the row must also belong to the user. */
  function RevokeOwn(t: Table, id: string, user: string): Table {
    if id in t && t[id].user == user then RevokeOne(t, id) else t
  }

  predicate Rotatable(t: Table, id: string) {
    id in t && !t[id].revoked && t[id].replacedBy.None?
  }

  /** Create the successor and close the session it replaces. */
  function Rotation(t: Table, id: string, next: string, expiresAt: int): Table
    requires id in t
  {
    t[next := Session(t[id].user, t[id].family, false, None, expiresAt)]
     [id := t[id].(revoked := true, replacedBy := Some(next))]
  }

  // ----- the interleaved protocol

  datatype Call =
    | Reading(token: Token)
    | Rotating(token: Token, next: string)
    | Revoking(token: Token, outcome: Outcome)
    | Expiring(token: Token)
    | Done(token: Token, outcome: Outcome)

  datatype State = State(sessions: Table, calls: map<nat, Call>, clock: int)

  datatype Event =
    | Login(id: string, user: string, family: string, expiresAt: int)
    | Begin(c: nat, token: Token)
    | Read(c: nat, userActive: bool, next: string)
    | Rotate(c: nat, expiresAt: int)
    | Revoke(c: nat)
    | Expire(c: nat)
    | Logout(id: string, user: string)
    | LogoutAll(user: string)
    | Tick(ms: nat)

  predicate FamilyUsed(t: Table, family: string) {
    exists id :: id in t && t[id].family == family
  }

  /** What a refresh call decides after it has read the session row. */
  function Decide(t: Table, clock: int, token: Token, userActive: bool, next: string): Call {
    var id := token.sessionId;
    if id !in t || t[id].user != token.user || t[id].family != token.family then Done(token, Invalid)
    else if !userActive then Revoking(token, Invalid)
    else if !token.genuine then Done(token, Invalid)
    else if t[id].revoked || t[id].replacedBy.Some? then Revoking(token, Reuse)
    else if t[id].expiresAt <= clock then Expiring(token)
    else Rotating(token, next)
  }

  function Do(s: State, e: Event): State {
    match e
    case Login(id, user, family, expiresAt) =>
      if id in s.sessions || FamilyUsed(s.sessions, family) then s
      else s.(sessions := s.sessions[id := Session(user, family, false, None, expiresAt)])
    case Begin(c, token) =>
      if c in s.calls then s else s.(calls := s.calls[c := Reading(token)])
    case Read(c, userActive, next) =>
      if c in s.calls && s.calls[c].Reading?
      then s.(calls := s.calls[c := Decide(s.sessions, s.clock, s.calls[c].token, userActive, next)])
      else s
    case Rotate(c, expiresAt) =>
      if c in s.calls && s.calls[c].Rotating? then
        var Rotating(token, next) := s.calls[c];
        if next in s.sessions then s.(calls := s.calls[c := Done(token, Failed)])
        else if Rotatable(s.sessions, token.sessionId)
        then State(Rotation(s.sessions, token.sessionId, next, expiresAt), s.calls[c := Done(token, Rotated(next))],
            s.clock)
        else s.(calls := s.calls[c := Revoking(token, Reuse)])
      else s
    case Revoke(c) =>
      if c in s.calls && s.calls[c].Revoking? then
        var Revoking(token, outcome) := s.calls[c];
        State(RevokeFamily(s.sessions, token.family), s.calls[c := Done(token, outcome)], s.clock)
      else s
    case Expire(c) =>
      if c in s.calls && s.calls[c].Expiring? then
        var token := s.calls[c].token;
        State(RevokeOne(s.sessions, token.sessionId), s.calls[c := Done(token, Expired)], s.clock)
      else s
    case Logout(id, user) => s.(sessions := RevokeOwn(s.sessions, id, user))
    case LogoutAll(user) => s.(sessions := RevokeUser(s.sessions, user))
    case Tick(ms) => s.(clock := s.clock + ms)
  }

  function DoAll(s: State, es: seq<Event>): State {
    if es == [] then s else Do(DoAll(s, es[..|es| - 1]), es[|es| - 1])
  }

  const EMPTY := State(map[], map[], 0)

  // ----- what every step keeps

  ghost predicate Dead(t: Table, family: string) {
    forall id | id in t && t[id].family == family :: t[id].revoked
  }

  function Family(t: Table, family: string): set<string> {
    set id | id in t && t[id].family == family
  }

  /** Session `a` was closed in favour of `b`. */
  predicate Link(t: Table, a: string, b: string) {
    a in t && t[a].revoked && t[a].replacedBy == Some(b)
  }

  /** The sessions of a family, each replaced by the next one; only the last may be unrevoked. */
  ghost predicate IsChain(t: Table, family: string, chain: seq<string>) {
    && chain != [] && Distinct(chain) && Elems(chain) == Family(t, family)
    && (forall i, j {:trigger chain[i], chain[j]} | 0 <= i < j < |chain| && j == i + 1 :: Link(t, chain[i], chain[j]))
    && chain[|chain| - 1] in t && t[chain[|chain| - 1]].replacedBy.None?
  }

  ghost predicate Linear(t: Table) {
    forall family | FamilyUsed(t, family) :: exists chain :: IsChain(t, family, chain)
  }

  ghost predicate Present(t: Table, token: Token) {
    token.sessionId in t && t[token.sessionId].family == token.family
  }

  ghost predicate CallOk(t: Table, call: Call) {
    match call
    case Reading(token) => true
    case Rotating(token, next) => Present(t, token)
    case Revoking(token, outcome) => Present(t, token) && (outcome == Reuse || outcome == Invalid)
    case Expiring(token) => Present(t, token)
    case Done(token, outcome) =>
      match outcome
      case Rotated(next) =>
        Present(t, token) && next in t && t[token.sessionId].revoked && t[token.sessionId].replacedBy == Some(next)
      case Reuse => Present(t, token) && Dead(t, token.family)
      case _ => true
  }

  predicate Succeeded(call: Call) {
    call.Done? && call.outcome.Rotated?
  }

  ghost predicate Inv(s: State) {
    && Linear(s.sessions)
    && (forall c | c in s.calls :: CallOk(s.sessions, s.calls[c]))
    && (forall c, d | c in s.calls && d in s.calls && c != d && Succeeded(s.calls[c]) && Succeeded(s.calls[d]) ::
          s.calls[c].outcome.next != s.calls[d].outcome.next)
  }

  /** `u` has every session of `t` with the same links, and revokes no less. */
  ghost predicate Revokes(t: Table, u: Table) {
    && t.Keys == u.Keys
    && forall id | id in t ::
         t[id].family == u[id].family && t[id].user == u[id].user && t[id].replacedBy == u[id].replacedBy &&
             (t[id].revoked ==> u[id].revoked)
  }

  lemma RevokesKeepsLinear(t: Table, u: Table)
    requires Linear(t) && Revokes(t, u)
    ensures Linear(u)
  {
    forall family | FamilyUsed(u, family)
      ensures exists chain :: IsChain(u, family, chain)
    {
      assert FamilyUsed(t, family);
      var chain :| IsChain(t, family, chain);
      assert Family(u, family) == Family(t, family);
      assert IsChain(u, family, chain);
    }
  }

  lemma RevokesKeepsCall(t: Table, u: Table, call: Call)
    requires CallOk(t, call) && Revokes(t, u)
    ensures CallOk(u, call)
  {
  }

  lemma RevokesKeepsInv(s: State, u: Table)
    requires Inv(s) && Revokes(s.sessions, u)
    ensures Inv(s.(sessions := u))
  {
    RevokesKeepsLinear(s.sessions, u);
    forall c | c in s.calls { RevokesKeepsCall(s.sessions, u, s.calls[c]); }
  }

  // ----- logging in

  lemma LoginKeepsInv(s: State, id: string, user: string, family: string, expiresAt: int)
    requires Inv(s) && id !in s.sessions && !FamilyUsed(s.sessions, family)
    ensures Inv(s.(sessions := s.sessions[id := Session(user, family, false, None, expiresAt)]))
  {
    var t := s.sessions;
    var u := t[id := Session(user, family, false, None, expiresAt)];
    forall f | FamilyUsed(u, f)
      ensures exists chain :: IsChain(u, f, chain)
    {
      if f == family {
        assert Family(u, f) == {id};
        assert IsChain(u, f, [id]);
      } else {
        assert FamilyUsed(t, f);
        var chain :| IsChain(t, f, chain);
        assert Family(u, f) == Family(t, f);
        assert IsChain(u, f, chain);
      }
    }
    forall c | c in s.calls
      ensures CallOk(u, s.calls[c])
    {
      assert CallOk(t, s.calls[c]);
    }
  }

  // ----- rotating

  lemma RotatableIsLast(t: Table, id: string, chain: seq<string>)
    requires Rotatable(t, id) && IsChain(t, t[id].family, chain)
    ensures chain[|chain| - 1] == id
  {
    assert id in Family(t, t[id].family);
    assert id in chain;
    var i :| 0 <= i < |chain| && chain[i] == id;
    assert i == |chain| - 1 || Link(t, chain[i], chain[i + 1]);
  }

  lemma FamilyGrows(t: Table, id: string, next: string, expiresAt: int)
    requires id in t && next !in t
    ensures Family(Rotation(t, id, next, expiresAt), t[id].family) == Family(t, t[id].family) + {next}
  {
  }

  lemma RotationExtendsChain(t: Table, id: string, next: string, expiresAt: int, chain: seq<string>)
    requires Rotatable(t, id) && next !in t && IsChain(t, t[id].family, chain)
    ensures IsChain(Rotation(t, id, next, expiresAt), t[id].family, chain + [next])
  {
    var u, f, longer := Rotation(t, id, next, expiresAt), t[id].family, chain + [next];
    RotatableIsLast(t, id, chain);
    forall k | k in chain
      ensures k in t
    {
      assert k in Elems(chain) && k in Family(t, f);
    }
    FamilyGrows(t, id, next, expiresAt);
    assert Elems(longer) == Elems(chain) + {next};
    forall i, j | 0 <= i < j < |longer| && j == i + 1
      ensures Link(u, longer[i], longer[j])
    {
      if j < |chain| { assert Link(t, chain[i], chain[j]) && chain[i] != chain[|chain| - 1]; }
    }
  }

  lemma RotationKeepsLinear(t: Table, id: string, next: string, expiresAt: int)
    requires Linear(t) && Rotatable(t, id) && next !in t
    ensures Linear(Rotation(t, id, next, expiresAt))
  {
    var u := Rotation(t, id, next, expiresAt);
    forall f | FamilyUsed(u, f)
      ensures exists chain :: IsChain(u, f, chain)
    {
      assert FamilyUsed(t, f);
      var chain :| IsChain(t, f, chain);
      if f == t[id].family {
        RotationExtendsChain(t, id, next, expiresAt, chain);
      } else {
        assert Family(u, f) == Family(t, f);
        forall k | k in chain
          ensures k in t && u[k] == t[k]
        {
          assert k in Elems(chain) && k in Family(t, f);
        }
        assert IsChain(u, f, chain);
      }
    }
  }

  lemma RotationKeepsCall(t: Table, id: string, next: string, expiresAt: int, call: Call)
    requires CallOk(t, call) && Rotatable(t, id) && next !in t
    ensures CallOk(Rotation(t, id, next, expiresAt), call)
  {
  }

  lemma RotateKeepsInv(s: State, c: nat, expiresAt: int)
    requires Inv(s) && c in s.calls && s.calls[c].Rotating?
    ensures Inv(Do(s, Rotate(c, expiresAt)))
  {
    var Rotating(token, next) := s.calls[c];
    var t, id := s.sessions, token.sessionId;
    if next !in t && Rotatable(t, id) {
      var u := Rotation(t, id, next, expiresAt);
      RotationKeepsLinear(t, id, next, expiresAt);
      forall d | d in s.calls { RotationKeepsCall(t, id, next, expiresAt, s.calls[d]); }
      assert CallOk(t, s.calls[c]);
      assert CallOk(u, Done(token, Rotated(next)));
      forall d | d in s.calls && d != c && Succeeded(s.calls[d])
        ensures s.calls[d].outcome.next != next
      {
        assert CallOk(t, s.calls[d]);
      }
    } else {
      assert CallOk(t, s.calls[c]);
    }
  }

  lemma CallMoves(s: State, c: nat, call: Call)
    requires Inv(s) && CallOk(s.sessions, call) && !Succeeded(call)
    ensures Inv(s.(calls := s.calls[c := call]))
  {
  }

  lemma DoKeepsInv(s: State, e: Event)
    requires Inv(s)
    ensures Inv(Do(s, e))
  {
    match e
    case Login(id, user, family, expiresAt) =>
      if id !in s.sessions && !FamilyUsed(s.sessions, family) { LoginKeepsInv(s, id, user, family, expiresAt); }
    case Begin(c, token) => CallMoves(s, c, Reading(token));
    case Read(c, userActive, next) =>
      if c in s.calls && s.calls[c].Reading? {
        CallMoves(s, c, Decide(s.sessions, s.clock, s.calls[c].token, userActive, next));
      }
    case Rotate(c, expiresAt) => if c in s.calls && s.calls[c].Rotating? { RotateKeepsInv(s, c, expiresAt); }
    case Revoke(c) => if c in s.calls && s.calls[c].Revoking? { RevokeKeepsInv(s, c); }
    case Expire(c) =>
      if c in s.calls && s.calls[c].Expiring? {
        var token := s.calls[c].token;
        RevokesKeepsInv(s, RevokeOne(s.sessions, token.sessionId));
        CallMoves(s.(sessions := RevokeOne(s.sessions, token.sessionId)), c, Done(token, Expired));
      }
    case Logout(id, user) => RevokesKeepsInv(s, RevokeOwn(s.sessions, id, user));
    case LogoutAll(user) => RevokesKeepsInv(s, RevokeUser(s.sessions, user));
    case Tick(ms) =>
  }

  lemma RevokeKeepsInv(s: State, c: nat)
    requires Inv(s) && c in s.calls && s.calls[c].Revoking?
    ensures Inv(Do(s, Revoke(c)))
  {
    var Revoking(token, outcome) := s.calls[c];
    var u := RevokeFamily(s.sessions, token.family);
    assert CallOk(s.sessions, s.calls[c]);
    RevokesKeepsInv(s, u);
    CallMoves(s.(sessions := u), c, Done(token, outcome));
  }

  lemma {:induction false} AlwaysInv(es: seq<Event>)
    ensures Inv(DoAll(EMPTY, es))
  {
    if es != [] {
      AlwaysInv(es[..|es| - 1]);
      DoKeepsInv(DoAll(EMPTY, es[..|es| - 1]), es[|es| - 1]);
    }
  }

  // ----- the promises, in every interleaving

  /** A refresh call that was neither turned away as invalid, nor expired, nor failed. */
  predicate Completed(call: Call) {
    call.Done? && (call.outcome.Rotated? || call.outcome.Reuse?)
  }

  /**
   Two completed refresh calls that presented the same session: the whole family is revoked,
   and at most one of them obtained a successor.
   */
  lemma ReuseKillsFamily(es: seq<Event>, c: nat, d: nat)
    requires var calls := DoAll(EMPTY, es).calls;
      c != d && c in calls && d in calls && Completed(calls[c]) && Completed(calls[d]) &&
      calls[c].token.sessionId == calls[d].token.sessionId
    ensures var s := DoAll(EMPTY, es);
      && Dead(s.sessions, s.calls[c].token.family)
      && !(s.calls[c].outcome.Rotated? && s.calls[d].outcome.Rotated?)
  {
    AlwaysInv(es);
    var s := DoAll(EMPTY, es);
    assert CallOk(s.sessions, s.calls[c]) && CallOk(s.sessions, s.calls[d]);
  }

  /** Every family is one linear replacement chain, and at most its last session is unrevoked. */
  lemma FamilyIsChain(es: seq<Event>, family: string) returns (chain: seq<string>)
    requires FamilyUsed(DoAll(EMPTY, es).sessions, family)
    ensures var t := DoAll(EMPTY, es).sessions;
      && IsChain(t, family, chain)
      && forall id | id in Family(t, family) && !t[id].revoked :: id == chain[|chain| - 1]
  {
    AlwaysInv(es);
    var t := DoAll(EMPTY, es).sessions;
    chain :| IsChain(t, family, chain);
    forall id | id in Family(t, family) && !t[id].revoked
      ensures id == chain[|chain| - 1]
    {
      assert id in chain;
      var i :| 0 <= i < |chain| && chain[i] == id;
      assert i == |chain| - 1 || Link(t, chain[i], chain[i + 1]);
    }
  }

  function Live(t: Table, family: string): set<string> {
    set id | id in t && t[id].family == family && !t[id].revoked
  }

  lemma DeadStaysDead(s: State, e: Event, family: string)
    requires Dead(s.sessions, family) && FamilyUsed(s.sessions, family)
    ensures Dead(Do(s, e).sessions, family) && FamilyUsed(Do(s, e).sessions, family)
  {
    var id :| id in s.sessions && s.sessions[id].family == family;
    assert id in Do(s, e).sessions && Do(s, e).sessions[id].family == family;
  }

  lemma {:induction false} DeadForever(s: State, es: seq<Event>, family: string)
    requires Dead(s.sessions, family) && FamilyUsed(s.sessions, family)
    ensures Dead(DoAll(s, es).sessions, family)
    ensures FamilyUsed(DoAll(s, es).sessions, family)
  {
    if es != [] {
      DeadForever(s, es[..|es| - 1], family);
      DeadStaysDead(DoAll(s, es[..|es| - 1]), es[|es| - 1], family);
    }
  }

  lemma AtMostOneLive(es: seq<Event>, family: string)
    ensures |Live(DoAll(EMPTY, es).sessions, family)| <= 1
  {
    var t := DoAll(EMPTY, es).sessions;
    if FamilyUsed(t, family) {
      var chain := FamilyIsChain(es, family);
      assert forall id | id in Live(t, family) :: id in Family(t, family);
      SubsetSize(Live(t, family), {chain[|chain| - 1]});
    } else {
      assert Live(t, family) == {};
    }
  }

  lemma {:induction false} SubsetSize(a: set<string>, b: set<string>)
    requires a <= b
    ensures |a| <= |b|
  {
    if x :| x in a { SubsetSize(a - {x}, b - {x}); }
  }

  lemma {:induction false} DoAllSplits(s: State, es: seq<Event>, fs: seq<Event>)
    ensures DoAll(s, es + fs) == DoAll(DoAll(s, es), fs)
  {
    if fs == [] {
      assert es + fs == es;
    } else {
      assert (es + fs)[..|es + fs| - 1] == es + fs[..|fs| - 1];
      DoAllSplits(s, es, fs[..|fs| - 1]);
    }
  }

  /** The number of unrevoked sessions of a family never rises, and a dead family stays dead. */
  lemma LiveCountNeverRises(es: seq<Event>, fs: seq<Event>, family: string)
    requires FamilyUsed(DoAll(EMPTY, es).sessions, family)
    ensures |Live(DoAll(EMPTY, es + fs).sessions, family)| <= |Live(DoAll(EMPTY, es).sessions, family)| <= 1
  {
    AtMostOneLive(es, family);
    AtMostOneLive(es + fs, family);
    var t := DoAll(EMPTY, es).sessions;
    if |Live(t, family)| == 0 {
      assert forall id | id in t && t[id].family == family :: t[id].revoked || id in Live(t, family);
      DeadForever(DoAll(EMPTY, es), fs, family);
      DoAllSplits(EMPTY, es, fs);
      assert Live(DoAll(EMPTY, es + fs).sessions, family) == {};
    }
  }

  // ----- the service

  /** A refresh call that runs with nothing in between. */
  function Alone(t: Table, token: Token, userActive: bool, now: int, next: string, expiresAt: int): State {
    var s := Do(Do(State(t, map[], now), Begin(0, token)), Read(0, userActive, next));
    Do(Do(Do(s, Rotate(0, expiresAt)), Revoke(0)), Expire(0))
  }

  // ----- what a token gets

  /** The session of the token exists, with the token's user and family. */
  predicate Known(t: Table, token: Token) {
    token.sessionId in t && t[token.sessionId].user == token.user && t[token.sessionId].family == token.family
  }

  /** The token proves its session, and the session's user may sign in. */
  predicate Trusted(t: Table, token: Token, userActive: bool) {
    Known(t, token) && userActive && token.genuine
  }

  predicate Closed(s: Session) {
    s.revoked || s.replacedBy.Some?
  }

  /** Exactly when a call that runs alone has the outcome. */
  predicate Deserves(t: Table, token: Token, userActive: bool, now: int, next: string, outcome: Outcome) {
    match outcome
    case Invalid => !Trusted(t, token, userActive)
    case Reuse => Trusted(t, token, userActive) && Closed(t[token.sessionId])
    case Expired =>
      Trusted(t, token, userActive) && !Closed(t[token.sessionId]) && t[token.sessionId].expiresAt <= now
    case Failed =>
      Trusted(t, token, userActive) && !Closed(t[token.sessionId]) && now < t[token.sessionId].expiresAt && next in t
    case Rotated(n) =>
      && Trusted(t, token, userActive) && !Closed(t[token.sessionId]) && now < t[token.sessionId].expiresAt
      && next !in t && n == next
  }

  /** The sessions that a call revokes besides the one it replaces. */
  predicate Revoked(t: Table, token: Token, userActive: bool, outcome: Outcome, id: string)
    requires id in t
  {
    match outcome
    case Invalid => Known(t, token) && !userActive && t[id].family == token.family
    case Reuse => t[id].family == token.family
    case Expired => id == token.sessionId
    case Failed => false
    case Rotated(_) => id == token.sessionId
  }

  /** The rows afterwards: what is revoked, what is replaced, and the one row that may be new. */
  ghost predicate Leaves(t: Table, u: Table, token: Token, userActive: bool, expiresAt: int, outcome: Outcome) {
    && u.Keys == t.Keys + (if outcome.Rotated? then {outcome.next} else {})
    && (forall id | id in t ::
          u[id] == t[id].(revoked := t[id].revoked || Revoked(t, token, userActive, outcome, id),
                          replacedBy := if outcome.Rotated? && id == token.sessionId then Some(outcome.next)
                                        else t[id].replacedBy))
    && (outcome.Rotated? ==> u[outcome.next] == Session(token.user, token.family, false, None, expiresAt))
  }

  /** A call that runs alone has the one outcome that the token deserves, and leaves the rows accordingly. */
  lemma AloneDeserves(t: Table, token: Token, userActive: bool, now: int, next: string, expiresAt: int)
    ensures var s := Alone(t, token, userActive, now, next, expiresAt);
      && 0 in s.calls && s.calls[0].Done? && s.calls[0].token == token
      && Deserves(t, token, userActive, now, next, s.calls[0].outcome)
      && Leaves(t, s.sessions, token, userActive, expiresAt, s.calls[0].outcome)
  {
  }

  class Sessions {
    var rows: Table

    constructor ()
      ensures rows == map[]
    {
      rows := map[];
    }

    method CreateSession(id: string, user: string, family: string, expiresAt: int)
      requires id !in rows && !FamilyUsed(rows, family)
      modifies this
      ensures rows == old(rows)[id := Session(user, family, false, None, expiresAt)]
      ensures rows == Do(State(old(rows), map[], 0), Login(id, user, family, expiresAt)).sessions
    {
      rows := rows[id := Session(user, family, false, None, expiresAt)];
    }

    method RevokeTokenFamily(family: string)
      modifies this
      ensures rows == RevokeFamily(old(rows), family) && Dead(rows, family)
    {
      rows := RevokeFamily(rows, family);
    }

    method RotateTransaction(id: string, next: string, expiresAt: int) returns (changed: bool)
      requires next !in rows
      modifies this
      ensures changed == old(Rotatable(rows, id))
      ensures rows == if changed then Rotation(old(rows), id, next, expiresAt) else old(rows)
    {
      changed := Rotatable(rows, id);
      if changed {
        rows := rows[next := Session(rows[id].user, rows[id].family, false, None, expiresAt)];
        rows := rows[id := rows[id].(revoked := true, replacedBy := Some(next))];
      }
    }

    /** The whole refresh call does what its steps do in the protocol. */
    method Refresh(token: Token, userActive: bool, now: int, next: string, expiresAt: int) returns (outcome: Outcome)
      modifies this
      ensures var s := Alone(old(rows), token, userActive, now, next, expiresAt);
        rows == s.sessions && 0 in s.calls && s.calls[0] == Done(token, outcome)
      ensures forall o :: outcome == o <==> old(Deserves(rows, token, userActive, now, next, o))
      ensures Leaves(old(rows), rows, token, userActive, expiresAt, outcome)
    {
      AloneDeserves(rows, token, userActive, now, next, expiresAt);
      var id := token.sessionId;
      if id !in rows || rows[id].user != token.user || rows[id].family != token.family { return Invalid; }
      if !userActive {
        RevokeTokenFamily(token.family);
        return Invalid;
      }
      if !token.genuine { return Invalid; }
      if rows[id].revoked || rows[id].replacedBy.Some? {
        RevokeTokenFamily(token.family);
        return Reuse;
      }
      if rows[id].expiresAt <= now {
        rows := RevokeOne(rows, id);
        return Expired;
      }
      if next in rows { return Failed; }
      var changed := RotateTransaction(id, next, expiresAt);
      assert changed;  // nothing came in between
      outcome := Rotated(next);
    }
  }
}
