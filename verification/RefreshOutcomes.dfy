/** Why refresh calls end as they do in any interleaving, and what signing out puts an end to. */
module RefreshOutcomes {
  import opened RefreshSessions

  /** The session is open and has not expired. */
  predicate Fit(s: State, token: Token, userActive: bool) {
    && Trusted(s.sessions, token, userActive) && !Closed(s.sessions[token.sessionId])
    && s.clock < s.sessions[token.sessionId].expiresAt
  }

  predicate OutOfDate(s: State, token: Token, userActive: bool) {
    && Trusted(s.sessions, token, userActive) && !Closed(s.sessions[token.sessionId])
    && s.sessions[token.sessionId].expiresAt <= s.clock
  }

  /** The state `s` of the read explains where the call has got. */
  predicate Explains(s: State, userActive: bool, next: string, call: Call) {
    match call
    case Reading(_) => false
    case Rotating(token, n) => Fit(s, token, userActive) && n == next
    case Expiring(token) => OutOfDate(s, token, userActive)
    case Revoking(token, outcome) => ExplainsOutcome(s, userActive, next, token, outcome)
    case Done(token, outcome) => ExplainsOutcome(s, userActive, next, token, outcome)
  }

  /** Reuse: the session was closed at the read, or was closed between the read and the rotation. */
  predicate ExplainsOutcome(s: State, userActive: bool, next: string, token: Token, outcome: Outcome) {
    match outcome
    case Invalid => !Trusted(s.sessions, token, userActive)
    case Reuse => Trusted(s.sessions, token, userActive) && !OutOfDate(s, token, userActive)
    case Expired => OutOfDate(s, token, userActive)
    case Failed => Fit(s, token, userActive)
    case Rotated(n) => Fit(s, token, userActive) && n == next
  }

  /** The k-th event is the read of call `c`. */
  ghost predicate ReadAt(es: seq<Event>, c: nat, k: int, token: Token) {
    && 0 <= k < |es| && es[k].Read? && es[k].c == c
    && var s := DoAll(EMPTY, es[..k]); c in s.calls && s.calls[c] == Reading(token)
  }

  ghost predicate Explained(es: seq<Event>, c: nat, call: Call) {
    exists k :: ReadAt(es, c, k, call.token) && Explains(DoAll(EMPTY, es[..k]), es[k].userActive, es[k].next, call)
  }

  lemma ExplainedLater(es: seq<Event>, e: Event, c: nat, call: Call)
    requires Explained(es, c, call)
    ensures Explained(es + [e], c, call)
  {
    var k :| ReadAt(es, c, k, call.token) && Explains(DoAll(EMPTY, es[..k]), es[k].userActive, es[k].next, call);
    assert (es + [e])[..k] == es[..k];
    assert ReadAt(es + [e], c, k, call.token);
  }

  /** A step of the call after its read keeps what the read explains. */
  lemma StepsFollow(s: State, e: Event, c: nat, read: State, userActive: bool, next: string)
    requires c in s.calls && Explains(read, userActive, next, s.calls[c])
    ensures c in Do(s, e).calls && Explains(read, userActive, next, Do(s, e).calls[c])
    ensures Do(s, e).calls[c].token == s.calls[c].token
  {
  }

  lemma ReadExplains(s: State, c: nat, userActive: bool, next: string)
    requires c in s.calls && s.calls[c].Reading?
    ensures var call := Do(s, Read(c, userActive, next)).calls[c];
      call.token == s.calls[c].token && Explains(s, userActive, next, call)
  {
  }

  lemma StartsReading(s: State, e: Event, c: nat)
    requires c in Do(s, e).calls && (c !in s.calls || s.calls[c].Reading?) && !(e.Read? && e.c == c)
    ensures Do(s, e).calls[c].Reading?
  {
  }

  lemma {:induction false} AlwaysExplained(es: seq<Event>, c: nat)
    requires c in DoAll(EMPTY, es).calls && !DoAll(EMPTY, es).calls[c].Reading?
    ensures Explained(es, c, DoAll(EMPTY, es).calls[c])
  {
    var before, e := es[..|es| - 1], es[|es| - 1];
    var s := DoAll(EMPTY, before);
    assert es == before + [e];
    if c in s.calls && !s.calls[c].Reading? {
      AlwaysExplained(before, c);
      ExplainedLater(before, e, c, s.calls[c]);
      var k :| ReadAt(es, c, k, s.calls[c].token) &&
               Explains(DoAll(EMPTY, es[..k]), es[k].userActive, es[k].next, s.calls[c]);
      StepsFollow(s, e, c, DoAll(EMPTY, es[..k]), es[k].userActive, es[k].next);
    } else if e.Read? && e.c == c && c in s.calls {
      ReadExplains(s, c, e.userActive, e.next);
      assert es[..|es| - 1] == before && ReadAt(es, c, |es| - 1, s.calls[c].token);
    } else {
      StartsReading(s, e, c);
    }
  }

  /** In every interleaving, the state that a finished call read explains its outcome. */
  lemma OutcomeHasCause(es: seq<Event>, c: nat) returns (k: nat)
    requires c in DoAll(EMPTY, es).calls && DoAll(EMPTY, es).calls[c].Done?
    ensures var call := DoAll(EMPTY, es).calls[c];
      && ReadAt(es, c, k, call.token)
      && ExplainsOutcome(DoAll(EMPTY, es[..k]), es[k].userActive, es[k].next, call.token, call.outcome)
  {
    AlwaysExplained(es, c);
    var call := DoAll(EMPTY, es).calls[c];
    k :| ReadAt(es, c, k, call.token) && Explains(DoAll(EMPTY, es[..k]), es[k].userActive, es[k].next, call);
  }

  /** A successor is only ever given for a genuine token of an open, unexpired session of an active user. */
  lemma OnlyGenuineRotates(es: seq<Event>, c: nat)
    requires var calls := DoAll(EMPTY, es).calls; c in calls && Succeeded(calls[c])
    ensures DoAll(EMPTY, es).calls[c].token.genuine
    ensures var token := DoAll(EMPTY, es).calls[c].token;
      exists k :: ReadAt(es, c, k, token) && es[k].userActive && Fit(DoAll(EMPTY, es[..k]), token, true)
  {
    var k := OutcomeHasCause(es, c);
  }

  // ----- signing out

  /** Signing out revokes exactly the named session, and only for its own user; signing out everywhere, all of them. */
  lemma SignOutExactly(s: State, id: string, user: string, other: string)
    requires other in s.sessions
    ensures var one, all := Do(s, Logout(id, user)), Do(s, LogoutAll(user));
      && one.sessions.Keys == all.sessions.Keys == s.sessions.Keys && one.calls == all.calls == s.calls
      && one.sessions[other] == s.sessions[other].(revoked :=
           s.sessions[other].revoked || (other == id && s.sessions[other].user == user))
      && all.sessions[other] == s.sessions[other].(revoked :=
           s.sessions[other].revoked || s.sessions[other].user == user)
  {
  }

  /** All sessions of a family belong to one user. */
  ghost predicate OneUser(t: Table) {
    forall a, b | a in t && b in t && t[a].family == t[b].family :: t[a].user == t[b].user
  }

  lemma StepKeepsUsers(s: State, e: Event)
    requires OneUser(s.sessions)
    ensures OneUser(Do(s, e).sessions)
  {
  }

  lemma {:induction false} AlwaysOneUser(es: seq<Event>)
    ensures OneUser(DoAll(EMPTY, es).sessions)
  {
    if es != [] {
      AlwaysOneUser(es[..|es| - 1]);
      StepKeepsUsers(DoAll(EMPTY, es[..|es| - 1]), es[|es| - 1]);
    }
  }

  /** After signing out everywhere, no family of the user ever has an unrevoked session again. */
  lemma SignOutEverywhereIsFinal(es: seq<Event>, fs: seq<Event>, user: string, id: string)
    requires var t := DoAll(EMPTY, es).sessions; id in t && t[id].user == user
    ensures var s := DoAll(EMPTY, es); Dead(DoAll(Do(s, LogoutAll(user)), fs).sessions, s.sessions[id].family)
  {
    var s := DoAll(EMPTY, es);
    var out, family := Do(s, LogoutAll(user)), s.sessions[id].family;
    AlwaysOneUser(es);
    assert id in out.sessions && out.sessions[id].family == family;
    DeadForever(out, fs, family);
  }

  /** After signing out of the open session of a family, the family never has an unrevoked session again. */
  lemma SignOutIsFinal(es: seq<Event>, fs: seq<Event>, user: string, id: string)
    requires var t := DoAll(EMPTY, es).sessions; id in t && t[id].user == user && !t[id].revoked
    ensures var s := DoAll(EMPTY, es); Dead(DoAll(Do(s, Logout(id, user)), fs).sessions, s.sessions[id].family)
  {
    var s := DoAll(EMPTY, es);
    var out, family := Do(s, Logout(id, user)), s.sessions[id].family;
    AtMostOneLive(es, family);
    forall other | other in out.sessions && out.sessions[other].family == family
      ensures out.sessions[other].revoked
    {
      if other != id && !out.sessions[other].revoked { OnlyOneLive(s.sessions, family, id, other); }
    }
    assert id in out.sessions && out.sessions[id].family == family;
    DeadForever(out, fs, family);
  }

  lemma OnlyOneLive(t: Table, family: string, a: string, b: string)
    requires a in Live(t, family) && b in Live(t, family) && |Live(t, family)| <= 1
    ensures a == b
  {
    if a != b {
      assert {a, b} <= Live(t, family);
      SubsetSize({a, b}, Live(t, family));
    }
  }
}
