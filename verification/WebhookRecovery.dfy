/** What an accepted reply says about the job, and which jobs can still be published. */
module WebhookRecovery {
  import opened Text
  import opened WebhookIdempotency

  lemma DoNext(s: State, es: seq<Event>, e: Event)
    ensures DoAll(s, es + [e]) == Do(DoAll(s, es), e)
  {
    assert (es + [e])[..|es + [e]| - 1] == es;
  }

  // ----- what a reply says

  ghost predicate AcceptedWith(s: State, c: nat, status: Status) {
    c in s.calls && s.calls[c].Done? && s.calls[c].reply.Accepted? && s.calls[c].reply.status == status
  }

  /** No request is accepted while its key is FAILED: it is sent again first. */
  lemma NeverAcceptedFailed(es: seq<Event>, c: nat)
    ensures !AcceptedWith(DoAll(EMPTY, es), c, Failed)
  {
    AlwaysInv(es);
    var s := DoAll(EMPTY, es);
    if c in s.calls { assert CallOk(s, s.calls[c]); }
  }

  /** In every interleaving, an accepted reply with the status means that the job is published. */
  ghost predicate MeansPublished(status: Status) {
    forall es, c | AcceptedWith(DoAll(EMPTY, es), c, status) ::
        DoAll(EMPTY, es).calls[c].reply.executionId in DoAll(EMPTY, es).published
  }

  /** An accepted reply means that the job is published for every status but PROCESSING. */
  lemma StatusTells(status: Status)
    ensures MeansPublished(status) <==> status != Processing
  {
    if status == Processing {
      var req := Request("", "");
      var es := [Arrive(0, req), Look(0), Claim(0, ""), Arrive(1, req), Look(1)];
      AcceptedBeforePublished(req, "");
      assert AcceptedWith(DoAll(EMPTY, es), 1, status);
    } else {
      forall es, c | AcceptedWith(DoAll(EMPTY, es), c, status)
        ensures DoAll(EMPTY, es).calls[c].reply.executionId in DoAll(EMPTY, es).published
      {
        NeverAcceptedFailed(es, c);
        EnqueuedIsPublished(es, "", c);
      }
    }
  }

  // ----- a key on which nobody works any more

  /** The call will not send the job of the key, whatever it does. */
  predicate Idle(row: KeyRow, call: Call) {
    call.Looking? || call.Done? || ((call.Claiming? || call.Beaten?) && call.req.hash != row.hash)
  }

  ghost predicate AllIdle(s: State, k: string, stopped: set<nat>)
    requires k in s.keys
  {
    forall c | c in s.calls && s.calls[c].req.key == k && c !in stopped :: Idle(s.keys[k], s.calls[c])
  }

  /** The key is PROCESSING, its job is not published, and only callers that have stopped could change that. */
  ghost predicate Stuck(s: State, k: string, x: string, stopped: set<nat>) {
    && Inv(s) && k in s.keys && s.keys[k].status == Processing && Stored(s.keys[k]) == Some(x) && x !in s.published
    && AllIdle(s, k, stopped)
  }

  /** A call on another key has another job. */
  lemma OtherJob(s: State, k: string, x: string, call: Call)
    requires Inv(s) && k in s.keys && Stored(s.keys[k]) == Some(x) && call.req.key != k
    requires call.Sending? || call.Resending?
    requires CallOk(s, call)
    ensures call.executionId != x
  {
    assert KeyOk(s, k) && KeyOk(s, call.req.key);
  }

  /** What a request that arrived at a stuck key is told. */
  ghost predicate ToldProcessing(row: KeyRow, x: string, call: Call) {
    call.Looking? || call == Done(call.req, if call.req.hash == row.hash then Accepted(x, Processing) else Conflict)
  }

  /** How a call on the key may go on: with the same request, idle, and told what it should be told. */
  ghost predicate GoesOn(row: KeyRow, x: string, before: Option<Call>, after: Call) {
    && Idle(row, after)
    && (before.None? ==> after.Looking?)
    && (before.Some? ==>
        before.value.req == after.req && (ToldProcessing(row, x, before.value) ==> ToldProcessing(row, x, after)))
  }

  function CallAt(s: State, c: nat): Option<Call> {
    if c in s.calls then Some(s.calls[c]) else None
  }

  /** A step of `c` that leaves the key and its job alone. */
  ghost predicate LeavesAlone(s: State, t: State, c: nat, k: string, x: string) {
    && k in s.keys && k in t.keys && t.keys[k] == s.keys[k] && x !in t.published
    && (t.calls == s.calls ||
        (&& c in t.calls && t.calls == s.calls[c := t.calls[c]] &&
            (c in s.calls ==> s.calls[c].req.key == t.calls[c].req.key)
         && (t.calls[c].req.key == k ==> GoesOn(s.keys[k], x, CallAt(s, c), t.calls[c]))))
  }

  lemma IdleStep(s: State, e: Event, k: string, x: string, stopped: set<nat>)
    requires Stuck(s, k, x, stopped) && e.c !in stopped && !e.Arrive? && e.c in s.calls && s.calls[e.c].req.key == k
    ensures LeavesAlone(s, Do(s, e), e.c, k, x)
  {
    assert Idle(s.keys[k], s.calls[e.c]);
  }

  lemma OtherStep(s: State, e: Event, k: string, x: string, stopped: set<nat>)
    requires Stuck(s, k, x, stopped) && e.c !in stopped && !e.Arrive? && e.c in s.calls && s.calls[e.c].req.key != k
    ensures LeavesAlone(s, Do(s, e), e.c, k, x)
  {
    var call := s.calls[e.c];
    assert CallOk(s, call);
    if call.Sending? || call.Resending? { OtherJob(s, k, x, call); }
  }

  lemma StepLeavesAlone(s: State, e: Event, k: string, x: string, stopped: set<nat>)
    requires Stuck(s, k, x, stopped) && e.c !in stopped
    ensures LeavesAlone(s, Do(s, e), e.c, k, x)
  {
    if !e.Arrive? && e.c in s.calls {
      if s.calls[e.c].req.key == k { IdleStep(s, e, k, x, stopped); } else { OtherStep(s, e, k, x, stopped); }
    }
  }

  lemma StuckStays(s: State, t: State, c: nat, k: string, x: string, stopped: set<nat>)
    requires Stuck(s, k, x, stopped) && Inv(t) && LeavesAlone(s, t, c, k, x) && c !in stopped
    ensures Stuck(t, k, x, stopped)
  {
    forall d | d in t.calls && t.calls[d].req.key == k && d !in stopped
      ensures Idle(t.keys[k], t.calls[d])
    {
      if d in s.calls && s.calls[d] == t.calls[d] { assert Idle(s.keys[k], s.calls[d]); }
    }
  }

  ghost predicate LaterTold(s: State, t: State, k: string, x: string)
    requires k in s.keys
  {
    && (forall c | c in s.calls :: c in t.calls)
    && (forall c | c in t.calls && c !in s.calls && t.calls[c].req.key == k :: ToldProcessing(s.keys[k], x, t.calls[c]))
  }

  lemma LaterStays(s: State, t: State, u: State, c: nat, k: string, x: string)
    requires k in s.keys && k in t.keys && t.keys[k] == s.keys[k] && LaterTold(s, t, k, x) && LeavesAlone(t, u, c, k, x)
    ensures LaterTold(s, u, k, x)
  {
    forall d | d in u.calls && d !in s.calls && u.calls[d].req.key == k
      ensures ToldProcessing(s.keys[k], x, u.calls[d])
    {
      if d in t.calls { assert t.calls[d].req.key == k && ToldProcessing(s.keys[k], x, t.calls[d]); }
    }
  }

  /**
   From a stuck key on, whatever the others do, the key stays PROCESSING, its job is never
   published, and every later request with its hash is accepted all the same.
   */
  lemma {:induction false} StuckForever(s: State, fs: seq<Event>, k: string, x: string, stopped: set<nat>)
    requires Stuck(s, k, x, stopped) && forall e | e in fs :: e.c !in stopped
    ensures var t := DoAll(s, fs); Stuck(t, k, x, stopped) && t.keys[k] == s.keys[k] && LaterTold(s, t, k, x)
  {
    if fs != [] {
      var front, e := fs[..|fs| - 1], fs[|fs| - 1];
      assert forall f | f in front :: f in fs;
      assert e in fs;
      var t := DoAll(s, front);
      StuckForever(s, front, k, x, stopped);
      StepLeavesAlone(t, e, k, x, stopped);
      DoKeeps(t, e);
      StuckStays(t, Do(t, e), e.c, k, x, stopped);
      LaterStays(s, t, Do(t, e), e.c, k, x);
    }
  }

  /** A caller alone on its key whose FAILED write does not commit leaves the key stuck. */
  lemma LostWriteSticks(s: State, c: nat)
    requires Inv(s) && c in s.calls && s.calls[c].Failing?
    requires var Failing(req, x) := s.calls[c];
      req.key in s.keys && s.keys[req.key].status == Processing && x !in s.published && AllIdle(s, req.key, {c})
    ensures Stuck(Do(s, Fail(c, false)), s.calls[c].req.key, s.calls[c].executionId, {})
  {
    DoKeeps(s, Fail(c, false));
    assert CallOk(s, s.calls[c]);
  }

  /** A caller alone on its key that stops before it sends leaves the key stuck. */
  lemma StoppedCallerSticks(s: State, c: nat)
    requires Inv(s) && c in s.calls && s.calls[c].Sending?
    requires var Sending(req, x) := s.calls[c];
      req.key in s.keys && s.keys[req.key].status == Processing && x !in s.published && AllIdle(s, req.key, {c})
    ensures Stuck(s, s.calls[c].req.key, s.calls[c].executionId, {c})
  {
    assert CallOk(s, s.calls[c]);
  }

  /** The first request on a key, up to its claim. */
  lemma FirstClaim(req: Request, x: string)
    ensures DoAll(EMPTY, [Arrive(0, req), Look(0), Claim(0, x)]) ==
      State(map[req.key := KeyRow(req.hash, Processing, Some(Response(true, x)))], map[x := req.key], {},
          map[0 := Sending(req, x)])
  {
    var a, b, c := Arrive(0, req), Look(0), Claim(0, x);
    assert [a, b, c][..2] == [a, b] && [a, b][..1] == [a];
    assert DoAll(EMPTY, [a]) == Move(EMPTY, 0, Looking(req));
    assert DoAll(EMPTY, [a, b]) == Move(EMPTY, 0, Claiming(req));
  }

  /** Such states are reached: by a first request whose send fails and whose FAILED write is lost, or that stops. */
  lemma StuckIsReached(req: Request, x: string)
    ensures Stuck(DoAll(EMPTY, [Arrive(0, req), Look(0), Claim(0, x)] + [Send(0, NotSent)] + [Fail(0, false)]), req.key,
      x, {})
    ensures Stuck(DoAll(EMPTY, [Arrive(0, req), Look(0), Claim(0, x)]), req.key, x, {0})
  {
    var claimed := [Arrive(0, req), Look(0), Claim(0, x)];
    FirstClaim(req, x);
    AlwaysInv(claimed);
    StoppedCallerSticks(DoAll(EMPTY, claimed), 0);
    DoNext(EMPTY, claimed, Send(0, NotSent));
    DoNext(EMPTY, claimed + [Send(0, NotSent)], Fail(0, false));
    AlwaysInv(claimed + [Send(0, NotSent)]);
    var s := DoAll(EMPTY, claimed + [Send(0, NotSent)]);
    assert s.calls == map[0 := Failing(req, x)];
    LostWriteSticks(s, 0);
  }

  // ----- which jobs can still be published

  /** The call can bring about that the job of the key is sent. */
  predicate Working(row: KeyRow, call: Call) {
    call.Sending? || call.Resending? || call.Failing? || ((call.Claiming? || call.Beaten?) && call.req.hash == row.hash)
  }

  ghost predicate Hope(s: State, k: string)
    requires k in s.keys
  {
    s.keys[k].status == Failed || exists c | c in s.calls && s.calls[c].req.key == k :: Working(s.keys[k], s.calls[c])
  }

  /** Without hope, an unpublished job is stuck. */
  lemma NoHopeSticks(s: State, k: string, x: string)
    requires Inv(s) && k in s.keys && Stored(s.keys[k]) == Some(x) && x !in s.published && !Hope(s, k)
    ensures Stuck(s, k, x, {})
  {
    assert KeyOk(s, k);
    forall c | c in s.calls && s.calls[c].req.key == k
      ensures Idle(s.keys[k], s.calls[c])
    {
      assert CallOk(s, s.calls[c]) && !Working(s.keys[k], s.calls[c]);
    }
  }

  lemma {:induction false} Above(ids: set<nat>) returns (bound: nat)
    ensures forall n | n in ids :: n < bound
    decreases |ids|
  {
    if ids == {} {
      bound := 0;
    } else {
      var n :| n in ids;
      var rest := Above(ids - {n});
      bound := if n < rest then rest else n + 1;
      forall m | m in ids
        ensures m < bound
      {
        assert m == n || m in ids - {n};
      }
    }
  }

  /** A new request on a FAILED key sends its job again. */
  lemma FailedRevives(s: State, k: string, x: string) returns (fs: seq<Event>)
    requires Inv(s) && k in s.keys && Stored(s.keys[k]) == Some(x) && s.keys[k].status == Failed
    ensures x in DoAll(s, fs).published
  {
    assert KeyOk(s, k);
    var d := Above(s.calls.Keys);
    var req := Request(k, s.keys[k].hash);
    var t := Do(s, Arrive(d, req));
    assert d !in s.calls && t == Move(s, d, Looking(req));
    var u := Do(t, Look(d));
    assert u == Move(t, d, Resending(req, x));
    fs := [] + [Arrive(d, req)] + [Look(d)] + [Resend(d, Confirmed)];
    DoNext(s, [], Arrive(d, req));
    DoNext(s, [] + [Arrive(d, req)], Look(d));
    DoNext(s, [] + [Arrive(d, req)] + [Look(d)], Resend(d, Confirmed));
  }

  lemma {:induction false} DoAllSplits(s: State, es: seq<Event>, fs: seq<Event>)
    ensures DoAll(s, es + fs) == DoAll(DoAll(s, es), fs)
  {
    if fs == [] {
      assert es + fs == es;
    } else {
      DoAllSplits(s, es, fs[..|fs| - 1]);
      assert (es + fs)[..|es + fs| - 1] == es + fs[..|fs| - 1];
    }
  }

  lemma JobIsSent(s: State, c: nat, e: Event)
    requires c in s.calls && (s.calls[c].Sending? || (s.calls[c].Resending? && s.calls[c].executionId in s.executions))
    requires e == if s.calls[c].Sending? then Send(c, Confirmed) else Resend(c, Confirmed)
    ensures s.calls[c].executionId in Do(s, e).published
  {
  }

  /** A call that holds the job sends it. */
  lemma SenderRevives(s: State, c: nat, k: string, x: string) returns (fs: seq<Event>)
    requires Inv(s) && k in s.keys && Stored(s.keys[k]) == Some(x) && c in s.calls && s.calls[c].req.key == k
    requires s.calls[c].Sending? || s.calls[c].Resending?
    ensures x in DoAll(s, fs).published
  {
    assert CallOk(s, s.calls[c]) && KeyOk(s, k);
    var e := if s.calls[c].Sending? then Send(c, Confirmed) else Resend(c, Confirmed);
    JobIsSent(s, c, e);
    fs := [] + [e];
    DoNext(s, [], e);
  }

  /** A caller that lost the race sends the job of the winner. */
  lemma LoserRevives(s: State, c: nat, k: string, x: string) returns (fs: seq<Event>)
    requires Inv(s) && k in s.keys && Stored(s.keys[k]) == Some(x) && c in s.calls && s.calls[c].req.key == k
    requires s.calls[c].Beaten? && s.calls[c].req.hash == s.keys[k].hash
    ensures x in DoAll(s, fs).published
  {
    assert KeyOk(s, k);
    var t := Do(s, LookAgain(c));
    assert t == Move(s, c, Sending(s.calls[c].req, x));
    DoKeeps(s, LookAgain(c));
    var gs := SenderRevives(t, c, k, x);
    fs := ([] + [LookAgain(c)]) + gs;
    DoNext(s, [], LookAgain(c));
    DoAllSplits(s, [] + [LookAgain(c)], gs);
  }

  lemma WorkerRevives(s: State, c: nat, k: string, x: string) returns (fs: seq<Event>)
    requires Inv(s) && k in s.keys && Stored(s.keys[k]) == Some(x) && c in s.calls && s.calls[c].req.key == k
    requires Working(s.keys[k], s.calls[c])
    ensures x in DoAll(s, fs).published
  {
    var call := s.calls[c];
    assert CallOk(s, call) && KeyOk(s, k);
    if call.Sending? || call.Resending? {
      fs := SenderRevives(s, c, k, x);
    } else if call.Beaten? {
      fs := LoserRevives(s, c, k, x);
    } else {
      var e := if call.Failing? then Fail(c, true) else Claim(c, x);
      var t := Do(s, e);
      DoKeeps(s, e);
      var gs: seq<Event>;
      if call.Failing? {
        assert t.keys[k].status == Failed;
        gs := FailedRevives(t, k, x);
      } else {
        assert t == Move(s, c, Beaten(call.req));
        gs := LoserRevives(t, c, k, x);
      }
      fs := ([] + [e]) + gs;
      DoNext(s, [], e);
      DoAllSplits(s, [] + [e], gs);
    }
  }

  /**
   In every reachable state, the unpublished job of a key can still be published exactly when the
   key is FAILED or some call on it is about to send, to send again, to write FAILED, or to claim
   the key or look at it again with the same hash.
   */
  lemma PublishableExactly(es: seq<Event>, k: string, x: string)
    requires var s := DoAll(EMPTY, es); k in s.keys && Stored(s.keys[k]) == Some(x) && x !in s.published
    ensures (exists fs :: x in DoAll(DoAll(EMPTY, es), fs).published) <==> Hope(DoAll(EMPTY, es), k)
  {
    var s := DoAll(EMPTY, es);
    AlwaysInv(es);
    if Hope(s, k) {
      var fs: seq<Event>;
      if s.keys[k].status == Failed {
        fs := FailedRevives(s, k, x);
      } else {
        var c :| c in s.calls && s.calls[c].req.key == k && Working(s.keys[k], s.calls[c]);
        fs := WorkerRevives(s, c, k, x);
      }
      assert x in DoAll(s, fs).published;
    } else {
      NoHopeSticks(s, k, x);
      forall fs
        ensures x !in DoAll(s, fs).published
      {
        StuckForever(s, fs, k, x, {});
      }
    }
  }
}
