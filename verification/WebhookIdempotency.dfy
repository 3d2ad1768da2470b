/**
 Idempotent reception of webhooks. Every query and every transaction is one atomic step; any
 number of requests interleave. Enqueueing may fail, also after the job was in fact published.
 */
module WebhookIdempotency {
  import opened Text

  datatype Status = Processing | Enqueued | Failed

  datatype Response = Response(accepted: bool, executionId: string)

  datatype KeyRow = KeyRow(hash: string, status: Status, response: Option<Response>)

  /** `status` is the status of the key at the moment of the reply. */
  datatype Reply = Accepted(executionId: string, status: Status) | Conflict | Unavailable

  /** `key` stands for organization, scope and idempotency key. */
  datatype Request = Request(key: string, hash: string)

  datatype Call =
    | Looking(req: Request)
    | Claiming(req: Request)
    | Beaten(req: Request)
    | Sending(req: Request, executionId: string)
    | Marking(req: Request, executionId: string)
    | Failing(req: Request, executionId: string)
    | Resending(req: Request, executionId: string)
    | Remarking(req: Request, executionId: string)
    | Done(req: Request, reply: Reply)

  /** `executions` maps each execution to the key it was created for; `published` holds the job ids. */
  datatype State = State(keys: map<string, KeyRow>, executions: map<string, string>, published: set<string>,
      calls: map<nat, Call>)

  datatype Sent = Confirmed | Unconfirmed | NotSent

  datatype Event =
    | Arrive(c: nat, req: Request)
    | Look(c: nat)
    | Claim(c: nat, executionId: string)
    | LookAgain(c: nat)
    | Send(c: nat, sent: Sent)
    | Mark(c: nat, committed: bool)
    | Fail(c: nat, committed: bool)
    | Resend(c: nat, sent: Sent)
    | Remark(c: nat, committed: bool)

  // ----- the steps

  function AfterLook(keys: map<string, KeyRow>, req: Request): Call {
    if req.key !in keys then Claiming(req) else
    var row := keys[req.key];
    if row.hash != req.hash || row.response.None? then Done(req, Conflict)
    else if row.status == Failed then Resending(req, row.response.value.executionId)
    else Done(req, Accepted(row.response.value.executionId, row.status))
  }

  function AfterDefeat(keys: map<string, KeyRow>, req: Request): Call {
    if req.key !in keys || keys[req.key].hash != req.hash || keys[req.key].response.None? then Done(req, Conflict)
    else Sending(req, keys[req.key].response.value.executionId)
  }

  function Updated(keys: map<string, KeyRow>, key: string, status: Status, response: Response): map<string, KeyRow> {
    if key in keys then keys[key := keys[key].(status := status, response := Some(response))] else keys
  }

  function Publish(published: set<string>, executionId: string, sent: Sent): set<string> {
    if sent.NotSent? then published else published + {executionId}
  }

  function Move(s: State, c: nat, call: Call): State {
    s.(calls := s.calls[c := call])
  }

  function LookStep(s: State, c: nat): State {
    if c in s.calls && s.calls[c].Looking? then Move(s, c, AfterLook(s.keys, s.calls[c].req)) else s
  }

  function ClaimStep(s: State, c: nat, x: string): State {
    if c in s.calls && s.calls[c].Claiming? then
      var req := s.calls[c].req;
      if req.key in s.keys then Move(s, c, Beaten(req))
      else if x in s.executions then s
      else State(s.keys[req.key := KeyRow(req.hash, Processing, Some(Response(true, x)))], s.executions[x := req.key],
                 s.published, s.calls[c := Sending(req, x)])
    else s
  }

  function LookAgainStep(s: State, c: nat): State {
    if c in s.calls && s.calls[c].Beaten? then Move(s, c, AfterDefeat(s.keys, s.calls[c].req)) else s
  }

  function SendStep(s: State, c: nat, sent: Sent): State {
    if c in s.calls && s.calls[c].Sending? then
      var Sending(req, x) := s.calls[c];
      Move(s.(published := Publish(s.published, x, sent)), c,
          if sent.Confirmed? then Marking(req, x) else Failing(req, x))
    else s
  }

  function MarkStep(s: State, c: nat, committed: bool): State {
    if c in s.calls && s.calls[c].Marking? then
      var Marking(req, x) := s.calls[c];
      if committed
      then Move(s.(keys := Updated(s.keys, req.key, Enqueued, Response(true, x))), c, Done(req, Accepted(x, Enqueued)))
      else Move(s, c, Failing(req, x))
    else s
  }

  function FailStep(s: State, c: nat, committed: bool): State {
    if c in s.calls && s.calls[c].Failing? then
      var Failing(req, x) := s.calls[c];
      Move(if committed then s.(keys := Updated(s.keys, req.key, Failed, Response(false, x)))
          else s, c, Done(req, Unavailable))
    else s
  }

  function ResendStep(s: State, c: nat, sent: Sent): State {
    if c in s.calls && s.calls[c].Resending? then
      var Resending(req, x) := s.calls[c];
      if x !in s.executions then Move(s, c, Done(req, Unavailable))
      else Move(s.(published := Publish(s.published, x, sent)), c,
          if sent.Confirmed? then Remarking(req, x) else Done(req, Unavailable))
    else s
  }

  function RemarkStep(s: State, c: nat, committed: bool): State {
    if c in s.calls && s.calls[c].Remarking? then
      var Remarking(req, x) := s.calls[c];
      if committed
      then Move(s.(keys := Updated(s.keys, req.key, Enqueued, Response(true, x))), c, Done(req, Accepted(x, Enqueued)))
      else Move(s, c, Done(req, Unavailable))
    else s
  }

  function Do(s: State, e: Event): State {
    match e
    case Arrive(c, req) => if c in s.calls then s else Move(s, c, Looking(req))
    case Look(c) => LookStep(s, c)
    case Claim(c, x) => ClaimStep(s, c, x)
    case LookAgain(c) => LookAgainStep(s, c)
    case Send(c, sent) => SendStep(s, c, sent)
    case Mark(c, committed) => MarkStep(s, c, committed)
    case Fail(c, committed) => FailStep(s, c, committed)
    case Resend(c, sent) => ResendStep(s, c, sent)
    case Remark(c, committed) => RemarkStep(s, c, committed)
  }

  function DoAll(s: State, es: seq<Event>): State {
    if es == [] then s else Do(DoAll(s, es[..|es| - 1]), es[|es| - 1])
  }

  const EMPTY := State(map[], map[], {}, map[])

  // ----- what every step keeps

  /** The execution that the key stores. */
  function Stored(row: KeyRow): Option<string> {
    if row.response.Some? then Some(row.response.value.executionId) else None
  }

  /** The request holds the key: same hash, and `x` is the stored execution. */
  ghost predicate Holds(s: State, req: Request, x: string) {
    req.key in s.keys && s.keys[req.key].hash == req.hash && Stored(s.keys[req.key]) == Some(x)
  }

  ghost predicate KeyOk(s: State, k: string)
    requires k in s.keys
  {
    var x := Stored(s.keys[k]);
    x.Some? && x.value in s.executions && s.executions[x.value] == k &&
        (s.keys[k].status == Enqueued ==> x.value in s.published)
  }

  ghost predicate ExecutionOk(s: State, x: string)
    requires x in s.executions
  {
    s.executions[x] in s.keys && Stored(s.keys[s.executions[x]]) == Some(x)
  }

  ghost predicate CallOk(s: State, call: Call) {
    match call
    case Looking(_) => true
    case Claiming(_) => true
    case Beaten(req) => req.key in s.keys
    case Sending(req, x) => Holds(s, req, x)
    case Marking(req, x) => Holds(s, req, x) && x in s.published
    case Failing(req, x) => Holds(s, req, x)
    case Resending(req, x) => Holds(s, req, x)
    case Remarking(req, x) => Holds(s, req, x) && x in s.published
    case Done(req, Accepted(x, status)) => Holds(s, req, x) && status != Failed &&
        (status == Enqueued ==> x in s.published)
    case Done(req, Conflict) => req.key in s.keys && s.keys[req.key].hash != req.hash
    case Done(req, Unavailable) => req.key in s.keys && s.keys[req.key].hash == req.hash
  }

  ghost predicate Inv(s: State) {
    && (forall k | k in s.keys :: KeyOk(s, k))
    && (forall x | x in s.executions :: ExecutionOk(s, x))
    && (forall c | c in s.calls :: CallOk(s, s.calls[c]))
  }

  /** Keys stay with their hash and execution; executions and jobs stay. */
  ghost predicate Grows(s: State, t: State) {
    && (forall k | k in s.keys ::
        k in t.keys && t.keys[k].hash == s.keys[k].hash && Stored(t.keys[k]) == Stored(s.keys[k]))
    && (forall x | x in s.executions :: x in t.executions && t.executions[x] == s.executions[x])
    && s.published <= t.published
  }

  lemma GrowsKeepsCall(s: State, t: State, call: Call)
    requires Grows(s, t) && CallOk(s, call)
    ensures CallOk(t, call)
  {
  }

  /** A step that grows the rows, keeps them in order and moves one call keeps everything. */
  lemma StepKeepsInv(s: State, t: State, c: nat, call: Call)
    requires Inv(s) && Grows(s, t) && t.calls == s.calls[c := call] && CallOk(t, call)
    requires forall k | k in t.keys :: KeyOk(t, k)
    requires forall x | x in t.executions :: ExecutionOk(t, x)
    ensures Inv(t)
  {
    forall d | d in t.calls
      ensures CallOk(t, t.calls[d])
    {
      if d != c { GrowsKeepsCall(s, t, s.calls[d]); }
    }
  }

  lemma UpdateKeeps(s: State, req: Request, x: string, status: Status, accepted: bool)
    requires Inv(s) && Holds(s, req, x) && (status == Enqueued ==> x in s.published)
    ensures var t := s.(keys := Updated(s.keys, req.key, status, Response(accepted, x)));
      Grows(s, t) && Inv(t)
  {
    var t := s.(keys := Updated(s.keys, req.key, status, Response(accepted, x)));
    forall k | k in t.keys
      ensures KeyOk(t, k)
    {
      assert KeyOk(s, k);
    }
    forall y | y in t.executions
      ensures ExecutionOk(t, y)
    {
      assert ExecutionOk(s, y);
    }
    forall c | c in t.calls { GrowsKeepsCall(s, t, s.calls[c]); }
  }

  lemma MoveKeeps(s: State, c: nat, call: Call)
    requires Inv(s) && CallOk(s, call)
    ensures Inv(Move(s, c, call))
  {
    var t := Move(s, c, call);
    assert forall k | k in t.keys :: KeyOk(s, k) && KeyOk(t, k);
    assert forall x | x in t.executions :: ExecutionOk(s, x) && ExecutionOk(t, x);
    StepKeepsInv(s, t, c, call);
  }

  lemma PublishKeeps(s: State, x: string, sent: Sent)
    requires Inv(s)
    ensures var t := s.(published := Publish(s.published, x, sent)); Inv(t) && Grows(s, t)
  {
    var t := s.(published := Publish(s.published, x, sent));
    assert forall k | k in t.keys :: KeyOk(s, k) && KeyOk(t, k);
    assert forall x | x in t.executions :: ExecutionOk(s, x) && ExecutionOk(t, x);
    forall c | c in t.calls { GrowsKeepsCall(s, t, s.calls[c]); }
  }

  lemma ClaimKeeps(s: State, c: nat, x: string)
    requires Inv(s) && c in s.calls && s.calls[c].Claiming?
    ensures Inv(ClaimStep(s, c, x)) && Grows(s, ClaimStep(s, c, x))
  {
    var req, t := s.calls[c].req, ClaimStep(s, c, x);
    if req.key in s.keys {
      MoveKeeps(s, c, Beaten(req));
    } else if x !in s.executions {
      forall k | k in t.keys
        ensures KeyOk(t, k)
      {
        if k != req.key { assert KeyOk(s, k); }
      }
      forall y | y in t.executions
        ensures ExecutionOk(t, y)
      {
        if y != x { assert ExecutionOk(s, y); }
      }
      StepKeepsInv(s, t, c, Sending(req, x));
    }
  }

  lemma LookKeeps(s: State, c: nat)
    requires Inv(s) && c in s.calls && s.calls[c].Looking?
    ensures Inv(LookStep(s, c))
  {
    var req := s.calls[c].req;
    if req.key in s.keys { assert KeyOk(s, req.key); }
    MoveKeeps(s, c, AfterLook(s.keys, req));
  }

  lemma LookAgainKeeps(s: State, c: nat)
    requires Inv(s) && c in s.calls && s.calls[c].Beaten?
    ensures Inv(LookAgainStep(s, c))
  {
    var req := s.calls[c].req;
    if req.key in s.keys { assert KeyOk(s, req.key); }
    MoveKeeps(s, c, AfterDefeat(s.keys, req));
  }

  lemma ResendKeeps(s: State, c: nat, sent: Sent)
    requires Inv(s) && c in s.calls && s.calls[c].Resending?
    ensures Inv(ResendStep(s, c, sent)) && Grows(s, ResendStep(s, c, sent))
  {
    var Resending(req, x) := s.calls[c];
    assert CallOk(s, s.calls[c]);
    assert KeyOk(s, req.key);
    PublishKeeps(s, x, sent);
    MoveKeeps(s.(published := Publish(s.published, x, sent)), c, ResendStep(s, c, sent).calls[c]);
  }

  lemma CommitKeeps(s: State, c: nat, call: Call, req: Request, x: string, status: Status, accepted: bool)
    requires Inv(s) && Holds(s, req, x) && (status == Enqueued ==> x in s.published) && CallOk(s, call)
    ensures var t := Move(s.(keys := Updated(s.keys, req.key, status, Response(accepted, x))), c, call);
      Inv(t) && Grows(s, t)
  {
    var t := s.(keys := Updated(s.keys, req.key, status, Response(accepted, x)));
    UpdateKeeps(s, req, x, status, accepted);
    GrowsKeepsCall(s, t, call);
    MoveKeeps(t, c, call);
  }

  lemma MarkKeeps(s: State, c: nat, committed: bool)
    requires Inv(s) && c in s.calls && s.calls[c].Marking?
    ensures Inv(MarkStep(s, c, committed)) && Grows(s, MarkStep(s, c, committed))
  {
    var Marking(req, x) := s.calls[c];
    assert CallOk(s, s.calls[c]);
    CommitKeeps(s, c, Done(req, Accepted(x, Enqueued)), req, x, Enqueued, true);
    MoveKeeps(s, c, Failing(req, x));
  }

  lemma FailKeeps(s: State, c: nat, committed: bool)
    requires Inv(s) && c in s.calls && s.calls[c].Failing?
    ensures Inv(FailStep(s, c, committed)) && Grows(s, FailStep(s, c, committed))
  {
    var Failing(req, x) := s.calls[c];
    assert CallOk(s, s.calls[c]);
    CommitKeeps(s, c, Done(req, Unavailable), req, x, Failed, false);
    MoveKeeps(s, c, Done(req, Unavailable));
  }

  lemma RemarkKeeps(s: State, c: nat, committed: bool)
    requires Inv(s) && c in s.calls && s.calls[c].Remarking?
    ensures Inv(RemarkStep(s, c, committed)) && Grows(s, RemarkStep(s, c, committed))
  {
    var Remarking(req, x) := s.calls[c];
    assert CallOk(s, s.calls[c]);
    CommitKeeps(s, c, Done(req, Accepted(x, Enqueued)), req, x, Enqueued, true);
    MoveKeeps(s, c, Done(req, Unavailable));
  }

  lemma SendKeeps(s: State, c: nat, sent: Sent)
    requires Inv(s) && c in s.calls && s.calls[c].Sending?
    ensures Inv(SendStep(s, c, sent)) && Grows(s, SendStep(s, c, sent))
  {
    var Sending(req, x) := s.calls[c];
    assert CallOk(s, s.calls[c]);
    PublishKeeps(s, x, sent);
    MoveKeeps(s.(published := Publish(s.published, x, sent)), c, SendStep(s, c, sent).calls[c]);
  }

  /** Every step keeps the invariant, and no step changes a stored hash or execution. */
  lemma DoKeeps(s: State, e: Event)
    requires Inv(s)
    ensures Inv(Do(s, e)) && Grows(s, Do(s, e))
  {
    if e.Arrive? {
      MoveKeeps(s, e.c, Looking(e.req));
    } else if e.c in s.calls {
      var call := s.calls[e.c];
      match e
      case Look(c) => if call.Looking? { LookKeeps(s, c); }
      case Claim(c, x) => if call.Claiming? { ClaimKeeps(s, c, x); }
      case LookAgain(c) => if call.Beaten? { LookAgainKeeps(s, c); }
      case Send(c, sent) => if call.Sending? { SendKeeps(s, c, sent); }
      case Mark(c, committed) => if call.Marking? { MarkKeeps(s, c, committed); }
      case Fail(c, committed) => if call.Failing? { FailKeeps(s, c, committed); }
      case Resend(c, sent) => if call.Resending? { ResendKeeps(s, c, sent); }
      case Remark(c, committed) => if call.Remarking? { RemarkKeeps(s, c, committed); }
    }
  }

  lemma {:induction false} AlwaysInv(es: seq<Event>)
    ensures Inv(DoAll(EMPTY, es))
  {
    if es != [] {
      AlwaysInv(es[..|es| - 1]);
      DoKeeps(DoAll(EMPTY, es[..|es| - 1]), es[|es| - 1]);
    }
  }

  lemma {:induction false} AlwaysGrows(es: seq<Event>, fs: seq<Event>)
    ensures Grows(DoAll(EMPTY, es), DoAll(EMPTY, es + fs))
  {
    if fs == [] {
      assert es + fs == es;
    } else {
      AlwaysGrows(es, fs[..|fs| - 1]);
      assert (es + fs)[..|es + fs| - 1] == es + fs[..|fs| - 1];
      AlwaysInv(es + fs[..|fs| - 1]);
      DoKeeps(DoAll(EMPTY, es + fs[..|fs| - 1]), fs[|fs| - 1]);
    }
  }

  // ----- the promises, in every interleaving

  /** At most one execution is created for a key. */
  lemma OneExecutionPerKey(es: seq<Event>, x: string, y: string)
    requires var s := DoAll(EMPTY, es); x in s.executions && y in s.executions && s.executions[x] == s.executions[y]
    ensures x == y
  {
    AlwaysInv(es);
    var s := DoAll(EMPTY, es);
    assert ExecutionOk(s, x) && ExecutionOk(s, y);
  }

  /** Accepted requests on one key have the same hash and are told the same execution: the stored one. */
  lemma AcceptedAgree(es: seq<Event>, c: nat, d: nat)
    requires var calls := DoAll(EMPTY, es).calls;
      c in calls && d in calls && calls[c].Done? && calls[d].Done? && calls[c].reply.Accepted? &&
          calls[d].reply.Accepted? &&
      calls[c].req.key == calls[d].req.key
    ensures var s := DoAll(EMPTY, es);
      && s.calls[c].req.hash == s.calls[d].req.hash
      && s.calls[c].reply.executionId == s.calls[d].reply.executionId
      && Holds(s, s.calls[c].req, s.calls[c].reply.executionId)
  {
    AlwaysInv(es);
    var s := DoAll(EMPTY, es);
    assert CallOk(s, s.calls[c]) && CallOk(s, s.calls[d]);
  }

  /** A finished request was refused as a conflict if and only if its key is stored with another hash. */
  lemma ConflictExactly(es: seq<Event>, c: nat)
    requires var calls := DoAll(EMPTY, es).calls; c in calls && calls[c].Done?
    ensures var s := DoAll(EMPTY, es);
      var Done(req, reply) := s.calls[c];
      req.key in s.keys && (reply == Conflict <==> s.keys[req.key].hash != req.hash)
  {
    AlwaysInv(es);
    assert CallOk(DoAll(EMPTY, es), DoAll(EMPTY, es).calls[c]);
  }

  /** A request that finds its key with its own hash is accepted with the stored execution, or sends it again. */
  lemma LookExactly(es: seq<Event>, c: nat, req: Request)
    requires var s := DoAll(EMPTY, es);
      c in s.calls && s.calls[c] == Looking(req) && req.key in s.keys && s.keys[req.key].hash == req.hash
    ensures var s := DoAll(EMPTY, es);
      var x, status := Stored(s.keys[req.key]), s.keys[req.key].status;
      && x.Some? && x.value in s.executions
      && Do(s, Look(c)) ==
           Move(s, c, if status == Failed then Resending(req, x.value) else Done(req, Accepted(x.value, status)))
  {
    AlwaysInv(es);
    assert KeyOk(DoAll(EMPTY, es), req.key);
  }

  /** Once a key exists, its hash and its execution never change. */
  lemma StoredNeverChanges(es: seq<Event>, fs: seq<Event>, k: string)
    requires k in DoAll(EMPTY, es).keys
    ensures var before, after := DoAll(EMPTY, es).keys, DoAll(EMPTY, es + fs).keys;
      k in after && after[k].hash == before[k].hash && Stored(after[k]) == Stored(before[k]) && Stored(before[k]).Some?
  {
    AlwaysGrows(es, fs);
    AlwaysInv(es);
    assert KeyOk(DoAll(EMPTY, es), k);
  }

  /** A key marked ENQUEUED, and a reply given while it was, mean the job was published. */
  lemma EnqueuedIsPublished(es: seq<Event>, k: string, c: nat)
    ensures var s := DoAll(EMPTY, es);
      && (k in s.keys && s.keys[k].status == Enqueued ==>
          Stored(s.keys[k]).Some? && Stored(s.keys[k]).value in s.published)
      && (c in s.calls && s.calls[c].Done? && s.calls[c].reply.Accepted? && s.calls[c].reply.status == Enqueued ==>
            s.calls[c].reply.executionId in s.published)
  {
    AlwaysInv(es);
    var s := DoAll(EMPTY, es);
    if k in s.keys { assert KeyOk(s, k); }
    if c in s.calls { assert CallOk(s, s.calls[c]); }
  }

  /** A duplicate that arrives before the job is published is accepted all the same. */
  lemma AcceptedBeforePublished(req: Request, x: string)
    ensures var s := DoAll(EMPTY, [Arrive(0, req), Look(0), Claim(0, x), Arrive(1, req), Look(1)]);
      1 in s.calls && s.calls[1] == Done(req, Accepted(x, Processing)) && s.published == {}
  {
    var a, b, c, d, e := Arrive(0, req), Look(0), Claim(0, x), Arrive(1, req), Look(1);
    assert [a, b, c, d, e][..4] == [a, b, c, d] && [a, b, c, d][..3] == [a, b, c] && [a, b, c][..2] == [a, b] &&
      [a, b][..1] == [a];
    assert DoAll(EMPTY, [a]) == Move(EMPTY, 0, Looking(req));
    assert DoAll(EMPTY, [a, b]) == Move(EMPTY, 0, Claiming(req));
    var s := DoAll(EMPTY, [a, b, c]);
    assert s.keys == map[req.key := KeyRow(req.hash, Processing, Some(Response(true, x)))] && s.published == {} &&
      1 !in s.calls;
    assert DoAll(EMPTY, [a, b, c, d]) == Move(s, 1, Looking(req));
  }

  // ----- the service

  /** A request that runs with nothing in between: its steps in the protocol, one after the other. */
  function Alone(s: State, req: Request, x: string, sent: Sent, marked: bool, failed: bool): State {
    var looked := LookStep(s.(calls := map[0 := Looking(req)]), 0);
    if looked.calls[0].Claiming?
    then FailStep(MarkStep(SendStep(ClaimStep(looked, 0, x), 0, sent), 0, marked), 0, failed)
    else RemarkStep(ResendStep(looked, 0, sent), 0, marked)
  }

  /** What the keys become once a claimed execution has been sent and marked. */
  function Settled(keys: map<string, KeyRow>, key: string, x: string, sent: Sent, marked: bool,
      failed: bool): map<string, KeyRow> {
    if sent.Confirmed? && marked then Updated(keys, key, Enqueued, Response(true, x))
    else if failed then Updated(keys, key, Failed, Response(false, x))
    else keys
  }

  lemma SettleSteps(s: State, req: Request, x: string, sent: Sent, marked: bool, failed: bool)
    requires 0 in s.calls && s.calls[0] == Sending(req, x)
    ensures var t := FailStep(MarkStep(SendStep(s, 0, sent), 0, marked), 0, failed);
      && t.keys == Settled(s.keys, req.key, x, sent, marked, failed)
      && t.executions == s.executions && t.published == Publish(s.published, x, sent)
      && 0 in t.calls &&
          t.calls[0] == Done(req, if sent.Confirmed? && marked then Accepted(x, Enqueued) else Unavailable)
  {
  }

  lemma ClaimSteps(s: State, req: Request, x: string)
    requires req.key !in s.keys && x !in s.executions
    ensures var looked := LookStep(s.(calls := map[0 := Looking(req)]), 0);
      && looked.calls[0].Claiming?
      && 0 in ClaimStep(looked, 0, x).calls && ClaimStep(looked, 0, x).calls[0] == Sending(req, x)
      && ClaimStep(looked, 0, x).keys == s.keys[req.key := KeyRow(req.hash, Processing, Some(Response(true, x)))]
      && ClaimStep(looked, 0, x).executions == s.executions[x := req.key]
      && ClaimStep(looked, 0, x).published == s.published
  {
  }

  lemma AloneFirst(s: State, req: Request, x: string, sent: Sent, marked: bool, failed: bool)
    requires req.key !in s.keys && x !in s.executions
    ensures var t := Alone(s, req, x, sent, marked, failed);
      && t.keys ==
          Settled(s.keys[req.key := KeyRow(req.hash, Processing, Some(Response(true, x)))], req.key, x, sent, marked,
          failed)
      && t.executions == s.executions[x := req.key] && t.published == Publish(s.published, x, sent)
      && 0 in t.calls &&
          t.calls[0] == Done(req, if sent.Confirmed? && marked then Accepted(x, Enqueued) else Unavailable)
  {
    ClaimSteps(s, req, x);
    var claimed := ClaimStep(LookStep(s.(calls := map[0 := Looking(req)]), 0), 0, x);
    SettleSteps(claimed, req, x, sent, marked, failed);
  }

  // ----- what a request is told

  /** The key is stored for this very request, together with an execution. */
  predicate Repeats(keys: map<string, KeyRow>, req: Request) {
    req.key in keys && keys[req.key].hash == req.hash && keys[req.key].response.Some?
  }

  predicate Delivered(sent: Sent, marked: bool) {
    sent.Confirmed? && marked
  }

  /** The stored execution exists, was sent again and is marked as sent. */
  predicate Redelivered(s: State, req: Request, sent: Sent, marked: bool)
    requires Repeats(s.keys, req)
  {
    s.keys[req.key].response.value.executionId in s.executions && Delivered(sent, marked)
  }

  /** Exactly when a request that runs alone gets the reply. */
  predicate Answers(s: State, req: Request, x: string, sent: Sent, marked: bool, reply: Reply) {
    match reply
    case Conflict => req.key in s.keys && !Repeats(s.keys, req)
    case Unavailable =>
      if req.key !in s.keys then !Delivered(sent, marked)
      else Repeats(s.keys, req) && s.keys[req.key].status == Failed && !Redelivered(s, req, sent, marked)
    case Accepted(y, status) =>
      if req.key !in s.keys then Delivered(sent, marked) && y == x && status == Enqueued
      else
        && Repeats(s.keys, req) && y == s.keys[req.key].response.value.executionId
        && if s.keys[req.key].status == Failed then Redelivered(s, req, sent, marked) && status == Enqueued
           else status == s.keys[req.key].status
  }

  /** The row of a new key. */
  function FirstRow(req: Request, x: string, sent: Sent, marked: bool, failed: bool): KeyRow {
    if Delivered(sent, marked) then KeyRow(req.hash, Enqueued, Some(Response(true, x)))
    else if failed then KeyRow(req.hash, Failed, Some(Response(false, x)))
    else KeyRow(req.hash, Processing, Some(Response(true, x)))
  }

  /** The job that a request that runs alone sends, if any. */
  function JobOf(s: State, req: Request, x: string): Option<string> {
    if req.key !in s.keys then Some(x)
    else if Repeats(s.keys, req) && s.keys[req.key].status == Failed &&
            s.keys[req.key].response.value.executionId in s.executions
    then Some(s.keys[req.key].response.value.executionId)
    else None
  }

  /** The rows afterwards. Only the row of the key may change, and an existing one only from FAILED to ENQUEUED. */
  ghost predicate Writes(s: State, t: State, req: Request, x: string, sent: Sent, marked: bool, failed: bool) {
    && t.executions == (if req.key in s.keys then s.executions else s.executions[x := req.key])
    && t.published == s.published +
         (if JobOf(s, req, x).Some? && sent != NotSent then {JobOf(s, req, x).value} else {})
    && t.keys ==
         if req.key !in s.keys then s.keys[req.key := FirstRow(req, x, sent, marked, failed)]
         else if JobOf(s, req, x).Some? && Delivered(sent, marked)
         then s.keys[req.key := KeyRow(req.hash, Enqueued, Some(Response(true, JobOf(s, req, x).value)))]
         else s.keys
  }

  lemma AloneRefused(s: State, req: Request, x: string, sent: Sent, marked: bool, failed: bool)
    requires req.key in s.keys && !Repeats(s.keys, req)
    ensures Alone(s, req, x, sent, marked, failed) == s.(calls := map[0 := Done(req, Conflict)])
  {
  }

  lemma AloneTold(s: State, req: Request, x: string, sent: Sent, marked: bool, failed: bool)
    requires Repeats(s.keys, req) && s.keys[req.key].status != Failed
    ensures var row := s.keys[req.key];
      Alone(s, req, x, sent, marked, failed) ==
        s.(calls := map[0 := Done(req, Accepted(row.response.value.executionId, row.status))])
  {
  }

  lemma AloneRetries(s: State, req: Request, x: string, sent: Sent, marked: bool, failed: bool)
    requires Repeats(s.keys, req) && s.keys[req.key].status == Failed
    ensures var t, y := Alone(s, req, x, sent, marked, failed), s.keys[req.key].response.value.executionId;
      && t.executions == s.executions
      && t.published == (if y in s.executions then Publish(s.published, y, sent) else s.published)
      && t.keys == (if Redelivered(s, req, sent, marked)
                    then s.keys[req.key := KeyRow(req.hash, Enqueued, Some(Response(true, y)))] else s.keys)
      && t.calls == map[0 := Done(req, if Redelivered(s, req, sent, marked) then Accepted(y, Enqueued)
                                       else Unavailable)]
  {
    var looked := LookStep(s.(calls := map[0 := Looking(req)]), 0);
    var y := s.keys[req.key].response.value.executionId;
    assert looked == s.(calls := map[0 := Resending(req, y)]);
    RetrySteps(looked, req, y, sent, marked);
  }

  lemma RetrySteps(s: State, req: Request, y: string, sent: Sent, marked: bool)
    requires s.calls == map[0 := Resending(req, y)] && req.key in s.keys && s.keys[req.key].hash == req.hash
    ensures var t := RemarkStep(ResendStep(s, 0, sent), 0, marked);
      && t.executions == s.executions
      && t.published == (if y in s.executions then Publish(s.published, y, sent) else s.published)
      && t.keys == (if y in s.executions && Delivered(sent, marked)
                    then s.keys[req.key := KeyRow(req.hash, Enqueued, Some(Response(true, y)))] else s.keys)
      && t.calls == map[0 := Done(req, if y in s.executions && Delivered(sent, marked) then Accepted(y, Enqueued)
                                       else Unavailable)]
  {
  }

  lemma AloneRepeated(s: State, req: Request, x: string, sent: Sent, marked: bool, failed: bool)
    requires req.key in s.keys
    ensures var t := Alone(s, req, x, sent, marked, failed);
      && 0 in t.calls && t.calls[0].Done? && t.calls[0].req == req
      && Answers(s, req, x, sent, marked, t.calls[0].reply) && Writes(s, t, req, x, sent, marked, failed)
  {
    if !Repeats(s.keys, req) {
      AloneRefused(s, req, x, sent, marked, failed);
    } else if s.keys[req.key].status != Failed {
      AloneTold(s, req, x, sent, marked, failed);
    } else {
      AloneRetries(s, req, x, sent, marked, failed);
    }
  }

  lemma FirstSettled(s: State, req: Request, x: string, sent: Sent, marked: bool, failed: bool)
    ensures Settled(s.keys[req.key := KeyRow(req.hash, Processing, Some(Response(true, x)))], req.key, x, sent, marked,
      failed) == s.keys[req.key := FirstRow(req, x, sent, marked, failed)]
  {
  }

  /** A request that runs alone gets the one reply that fits, and writes the rows accordingly. */
  lemma AloneAnswers(s: State, req: Request, x: string, sent: Sent, marked: bool, failed: bool)
    requires x !in s.executions
    ensures var t := Alone(s, req, x, sent, marked, failed);
      && 0 in t.calls && t.calls[0].Done? && t.calls[0].req == req
      && Answers(s, req, x, sent, marked, t.calls[0].reply) && Writes(s, t, req, x, sent, marked, failed)
  {
    if req.key in s.keys {
      AloneRepeated(s, req, x, sent, marked, failed);
    } else {
      AloneFirst(s, req, x, sent, marked, failed);
      FirstSettled(s, req, x, sent, marked, failed);
    }
  }

  class Receiver {
    var keys: map<string, KeyRow>
    var executions: map<string, string>
    var published: set<string>

    constructor ()
      ensures keys == map[] && executions == map[] && published == {}
    {
      keys, executions, published := map[], map[], {};
    }

    method ClaimExecution(req: Request, x: string)
      requires req.key !in keys && x !in executions
      modifies this
      ensures keys == old(keys)[req.key := KeyRow(req.hash, Processing, Some(Response(true, x)))]
      ensures executions == old(executions)[x := req.key] && published == old(published)
    {
      keys := keys[req.key := KeyRow(req.hash, Processing, None)];
      executions := executions[x := req.key];
      keys := keys[req.key := keys[req.key].(response := Some(Response(true, x)))];
    }

    method RetryFailedEnqueue(req: Request, x: string, sent: Sent, marked: bool) returns (reply: Reply)
      requires req.key in keys
      modifies this
      ensures executions == old(executions)
      ensures published == if x in executions then Publish(old(published), x, sent) else old(published)
      ensures reply == if x in executions && sent.Confirmed? && marked then Accepted(x, Enqueued) else Unavailable
      ensures keys == if reply.Accepted? then Updated(old(keys), req.key, Enqueued, Response(true, x)) else old(keys)
    {
      if x !in executions { return Unavailable; }
      published := Publish(published, x, sent);
      if !sent.Confirmed? || !marked { return Unavailable; }
      keys := keys[req.key := keys[req.key].(status := Enqueued, response := Some(Response(true, x)))];
      reply := Accepted(x, Enqueued);
    }

    method ReceiveDuplicate(req: Request, x: string, sent: Sent, marked: bool, failed: bool) returns (reply: Reply)
      requires x !in executions && req.key in keys
      modifies this
      ensures var s := Alone(State(old(keys), old(executions), old(published), map[]), req, x, sent, marked, failed);
        keys == s.keys && executions == s.executions && published == s.published && 0 in s.calls &&
            s.calls[0] == Done(req, reply)
    {
      var row := keys[req.key];
      if row.hash != req.hash || row.response.None? { return Conflict; }
      if row.status == Failed {
        reply := RetryFailedEnqueue(req, row.response.value.executionId, sent, marked);
        return;
      }
      reply := Accepted(row.response.value.executionId, row.status);
    }

    method ReceiveFirst(req: Request, x: string, sent: Sent, marked: bool, failed: bool) returns (reply: Reply)
      requires x !in executions && req.key !in keys
      modifies this
      ensures var s := Alone(State(old(keys), old(executions), old(published), map[]), req, x, sent, marked, failed);
        keys == s.keys && executions == s.executions && published == s.published && 0 in s.calls &&
            s.calls[0] == Done(req, reply)
    {
      AloneFirst(State(keys, executions, published, map[]), req, x, sent, marked, failed);
      ClaimExecution(req, x);
      published := Publish(published, x, sent);
      if sent.Confirmed? && marked {
        keys := keys[req.key := keys[req.key].(status := Enqueued, response := Some(Response(true, x)))];
        return Accepted(x, Enqueued);
      }
      if failed {
        keys := keys[req.key := keys[req.key].(status := Failed, response := Some(Response(false, x)))];
      }
      reply := Unavailable;
    }

    /** The whole request does what its steps do in the protocol. */
    method Receive(req: Request, x: string, sent: Sent, marked: bool, failed: bool) returns (reply: Reply)
      requires x !in executions
      modifies this
      ensures var s := Alone(State(old(keys), old(executions), old(published), map[]), req, x, sent, marked, failed);
        keys == s.keys && executions == s.executions && published == s.published && 0 in s.calls &&
            s.calls[0] == Done(req, reply)
      ensures var s := State(old(keys), old(executions), old(published), map[]);
        && (forall r :: reply == r <==> Answers(s, req, x, sent, marked, r))
        && Writes(s, State(keys, executions, published, map[]), req, x, sent, marked, failed)
    {
      AloneAnswers(State(keys, executions, published, map[]), req, x, sent, marked, failed);
      if req.key in keys {
        reply := ReceiveDuplicate(req, x, sent, marked, failed);
      } else {
        reply := ReceiveFirst(req, x, sent, marked, failed);
      }
    }
  }
}
