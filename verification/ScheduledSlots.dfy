/**
 The slots of one scheduled trigger that nobody edits. Any number of `runDue` calls interleave;
 every query and every transaction is one atomic step. `next` gives the slot after a slot.
 */
module ScheduledSlots {

  datatype Result = Skipped | Missed | Ran(id: string) | Duplicate | Failed

  datatype Call = Reading | Due(slot: int) | Missing(slot: int) | Claiming(slot: int) | Done(result: Result)

  /**
   `keys`: slots with an idempotency key; `executions`: the slot of each; `missed`: slots skipped on purpose;
   `running`: executions in an active status; `guarded`: the policy `skip_if_running`.
   */
  datatype State = State(nextRunAt: int, keys: set<int>, executions: map<string, int>, missed: set<int>, clock: int,
                         calls: map<nat, Call>, running: set<string>, guarded: bool)

  /** The workflow as a call finds it: active with a valid definition, not active, or with an invalid definition. */
  datatype Workflow = Ready | Inactive | Broken

  datatype Event =
    | Start(c: nat)
    | Read(c: nat, active: bool)
    | Choose(c: nat, workflow: Workflow)
    | Advance(c: nat)
    | Claim(c: nat, id: string)
    | Finish(id: string)
    | Tick(ms: nat)

  ghost predicate Later(next: int -> int) {
    forall t :: t < next(t)
  }

  function Move(s: State, c: nat, call: Call): State {
    s.(calls := s.calls[c := call])
  }

  /** Compare-and-set on the next slot. */
  function Passed(s: State, slot: int, next: int -> int): State {
    if s.nextRunAt == slot then s.(nextRunAt := next(slot)) else s
  }

  function ReadStep(s: State, c: nat, active: bool): State {
    if c in s.calls && s.calls[c].Reading?
    then Move(s, c, if active && s.nextRunAt <= s.clock then Due(s.nextRunAt) else Done(Skipped))
    else s
  }

  /** Under `skip_if_running` an active execution makes the call skip its slot. */
  predicate Skips(s: State, workflow: Workflow) {
    workflow == Inactive || (workflow == Ready && s.guarded && s.running != {})
  }

  function ChooseStep(s: State, c: nat, workflow: Workflow): State {
    if c in s.calls && s.calls[c].Due? then
      var slot := s.calls[c].slot;
      Move(s, c,
           if Skips(s, workflow) then Missing(slot) else if workflow == Broken then Done(Failed) else Claiming(slot))
    else s
  }

  function AdvanceStep(s: State, c: nat, next: int -> int): State {
    if c in s.calls && s.calls[c].Missing? then
      var slot := s.calls[c].slot;
      Move(Passed(s.(missed := s.missed + {slot}), slot, next), c, Done(Missed))
    else s
  }

  function Created(s: State, slot: int, id: string): State {
    s.(keys := s.keys + {slot}, executions := s.executions[id := slot], running := s.running + {id})
  }

  /** The key, the execution and the move to the next slot are one transaction. */
  function ClaimStep(s: State, c: nat, id: string, next: int -> int): State {
    if c in s.calls && s.calls[c].Claiming? then
      var slot := s.calls[c].slot;
      if slot in s.keys then Move(s, c, Done(Duplicate))
      else if id in s.executions then s
      else Move(Passed(Created(s, slot, id), slot, next), c, Done(Ran(id)))
    else s
  }

  function Do(s: State, e: Event, next: int -> int): State {
    match e
    case Start(c) => if c in s.calls then s else Move(s, c, Reading)
    case Read(c, active) => ReadStep(s, c, active)
    case Choose(c, workflow) => ChooseStep(s, c, workflow)
    case Advance(c) => AdvanceStep(s, c, next)
    case Claim(c, id) => ClaimStep(s, c, id, next)
    case Finish(id) => s.(running := s.running - {id})
    case Tick(ms) => s.(clock := s.clock + ms)
  }

  function DoAll(s: State, es: seq<Event>, next: int -> int): State {
    if es == [] then s else Do(DoAll(s, es[..|es| - 1], next), es[|es| - 1], next)
  }

  function Fresh(first: int, clock: int, guarded: bool): State {
    State(first, {}, map[], {}, clock, map[], {}, guarded)
  }

  // ----- the schedule

  function Slot(first: int, next: int -> int, k: nat): int {
    if k == 0 then first else next(Slot(first, next, k - 1))
  }

  lemma {:induction false} SlotsRise(first: int, next: int -> int, j: nat, k: nat)
    requires Later(next) && j < k
    ensures Slot(first, next, j) < Slot(first, next, k)
  {
    assert Slot(first, next, k - 1) < next(Slot(first, next, k - 1));
    if j < k - 1 { SlotsRise(first, next, j, k - 1); }
  }

  ghost predicate OnSchedule(first: int, next: int -> int, n: nat, t: int) {
    exists k: nat :: k < n && Slot(first, next, k) == t
  }

  ghost predicate Executed(s: State, t: int) {
    exists x :: x in s.executions && s.executions[x] == t
  }

  ghost predicate CallOk(s: State, first: int, next: int -> int, n: nat, call: Call) {
    (call.Due? || call.Missing? || call.Claiming?) ==> OnSchedule(first, next, n + 1, call.slot) && call.slot <= s.clock
  }

  /** After `n` slots have been passed. */
  ghost predicate Inv(s: State, first: int, next: int -> int, n: nat) {
    && s.nextRunAt == Slot(first, next, n)
    && (forall k: nat | k < n :: Slot(first, next, k) in s.keys || Slot(first, next, k) in s.missed)
    && (forall t | t in s.keys :: Executed(s, t) && OnSchedule(first, next, n, t))
    && (forall x | x in s.executions :: s.executions[x] in s.keys && s.executions[x] <= s.clock)
    && (forall x, y | x in s.executions && y in s.executions && s.executions[x] == s.executions[y] :: x == y)
    && (forall c | c in s.calls :: CallOk(s, first, next, n, s.calls[c]))
  }

  lemma ScheduleGrows(first: int, next: int -> int, n: nat, t: int)
    requires OnSchedule(first, next, n, t)
    ensures OnSchedule(first, next, n + 1, t)
  {
    var k: nat :| k < n && Slot(first, next, k) == t;
    assert k < n + 1 && Slot(first, next, k) == t;
  }

  lemma SlotOnSchedule(first: int, next: int -> int, n: nat)
    ensures OnSchedule(first, next, n + 1, Slot(first, next, n))
  {
    assert n < n + 1 && Slot(first, next, n) == Slot(first, next, n);
  }

  /** A slot of the schedule that is not the next one has been passed. */
  lemma OlderIsPassed(first: int, next: int -> int, n: nat, t: int)
    requires OnSchedule(first, next, n + 1, t) && t != Slot(first, next, n)
    ensures OnSchedule(first, next, n, t)
  {
    var k: nat :| k < n + 1 && Slot(first, next, k) == t;
    assert k < n;
  }

  /** The next slot is always beyond those passed. */
  lemma NextIsBeyond(first: int, next: int -> int, n: nat, t: int)
    requires Later(next) && OnSchedule(first, next, n, t)
    ensures t < Slot(first, next, n)
  {
    var k: nat :| k < n && Slot(first, next, k) == t;
    SlotsRise(first, next, k, n);
  }

  lemma CallsStay(s: State, first: int, next: int -> int, n: nat)
    requires Inv(s, first, next, n)
    ensures forall c | c in s.calls :: CallOk(s, first, next, n + 1, s.calls[c])
  {
    forall c | c in s.calls
      ensures CallOk(s, first, next, n + 1, s.calls[c])
    {
      var call := s.calls[c];
      assert CallOk(s, first, next, n, call);
      if call.Due? || call.Missing? || call.Claiming? { ScheduleGrows(first, next, n + 1, call.slot); }
    }
  }

  lemma MissKeeps(s: State, slot: int, first: int, next: int -> int, n: nat)
    requires Inv(s, first, next, n)
    ensures Inv(s.(missed := s.missed + {slot}), first, next, n)
  {
    var t := s.(missed := s.missed + {slot});
    assert forall u | u in t.keys :: Executed(s, u) && Executed(t, u);
    assert forall d | d in t.calls :: CallOk(s, first, next, n, s.calls[d]);
  }

  lemma PassKeeps(s: State, slot: int, first: int, next: int -> int, n: nat) returns (m: nat)
    requires Inv(s, first, next, n) && slot in s.missed
    ensures n <= m && Inv(Passed(s, slot, next), first, next, m)
  {
    m := n;
    if s.nextRunAt == slot {
      m := n + 1;
      var t := Passed(s, slot, next);
      CallsStay(s, first, next, n);
      assert forall d | d in t.calls :: CallOk(t, first, next, m, t.calls[d]);
      forall u | u in t.keys
        ensures Executed(t, u) && OnSchedule(first, next, m, u)
      {
        assert Executed(s, u);
        ScheduleGrows(first, next, n, u);
      }
    }
  }

  lemma AdvanceKeeps(s: State, c: nat, first: int, next: int -> int, n: nat) returns (m: nat)
    requires Inv(s, first, next, n) && c in s.calls && s.calls[c].Missing?
    ensures n <= m && Inv(AdvanceStep(s, c, next), first, next, m)
  {
    var slot := s.calls[c].slot;
    var t := s.(missed := s.missed + {slot});
    MissKeeps(s, slot, first, next, n);
    m := PassKeeps(t, slot, first, next, n);
    CallMoves(Passed(t, slot, next), c, Done(Missed), first, next, m);
  }

  lemma RunKeeps(s: State, id: string, slot: int, first: int, next: int -> int, n: nat) returns (m: nat)
    requires Inv(s, first, next, n) && OnSchedule(first, next, n + 1, slot) && slot <= s.clock
    requires slot !in s.keys && id !in s.executions
    ensures n <= m && Inv(Passed(Created(s, slot, id), slot, next), first, next, m)
  {
    var t := Passed(Created(s, slot, id), slot, next);
    m := if s.nextRunAt == slot then n + 1 else n;
    ClaimedSlots(s, t, id, slot, first, next, n, m);
    PassedSlots(s, t, slot, first, next, n, m);
    ClaimedExecutions(s, t, id, slot);
    CallsStay(s, first, next, n);
    forall d | d in t.calls
      ensures CallOk(t, first, next, m, t.calls[d])
    {
      assert CallOk(s, first, next, n, s.calls[d]);
    }
  }

  lemma PassedSlots(s: State, t: State, slot: int, first: int, next: int -> int, n: nat, m: nat)
    requires Inv(s, first, next, n) && t.keys == s.keys + {slot} && t.missed == s.missed
    requires m == if slot == Slot(first, next, n) then n + 1 else n
    ensures forall k: nat | k < m :: Slot(first, next, k) in t.keys || Slot(first, next, k) in t.missed
  {
  }

  lemma ClaimedExecutions(s: State, t: State, id: string, slot: int)
    requires forall x | x in s.executions :: s.executions[x] in s.keys && s.executions[x] <= s.clock
    requires forall x, y | x in s.executions && y in s.executions && s.executions[x] == s.executions[y] :: x == y
    requires t.keys == s.keys + {slot} && t.executions == s.executions[id := slot] && slot !in s.keys &&
      slot <= s.clock == t.clock
    ensures forall x | x in t.executions :: t.executions[x] in t.keys && t.executions[x] <= t.clock
    ensures forall x, y | x in t.executions && y in t.executions && t.executions[x] == t.executions[y] :: x == y
  {
  }

  lemma ClaimKeeps(s: State, c: nat, id: string, first: int, next: int -> int, n: nat) returns (m: nat)
    requires Inv(s, first, next, n) && c in s.calls && s.calls[c].Claiming?
    ensures n <= m && Inv(ClaimStep(s, c, id, next), first, next, m)
  {
    var slot := s.calls[c].slot;
    assert CallOk(s, first, next, n, s.calls[c]);
    m := n;
    if slot in s.keys {
      CallMoves(s, c, Done(Duplicate), first, next, n);
    } else if id !in s.executions {
      m := RunKeeps(s, id, slot, first, next, n);
      CallMoves(Passed(Created(s, slot, id), slot, next), c, Done(Ran(id)), first, next, m);
    }
  }

  lemma ClaimedSlots(s: State, t: State, id: string, slot: int, first: int, next: int -> int, n: nat, m: nat)
    requires Inv(s, first, next, n) && OnSchedule(first, next, n + 1, slot)
    requires t.keys == s.keys + {slot} && t.executions == s.executions[id := slot] && id !in s.executions
    requires m == if slot == Slot(first, next, n) then n + 1 else n
    ensures forall u | u in t.keys :: Executed(t, u) && OnSchedule(first, next, m, u)
  {
    forall u | u in t.keys
      ensures Executed(t, u) && OnSchedule(first, next, m, u)
    {
      if u == slot {
        assert t.executions[id] == slot;
        if m == n { OlderIsPassed(first, next, n, slot); }
      } else {
        assert Executed(s, u);
        var x :| x in s.executions && s.executions[x] == u;
        assert t.executions[x] == u;
        if m == n + 1 { ScheduleGrows(first, next, n, u); }
      }
    }
  }

  lemma CallMoves(s: State, c: nat, call: Call, first: int, next: int -> int, n: nat)
    requires Inv(s, first, next, n) && CallOk(s, first, next, n, call)
    ensures Inv(Move(s, c, call), first, next, n)
  {
    var t := Move(s, c, call);
    assert forall u | u in t.keys :: Executed(s, u) && Executed(t, u);
    assert forall d | d in t.calls && d != c :: CallOk(s, first, next, n, s.calls[d]);
  }

  lemma ReadKeeps(s: State, c: nat, active: bool, first: int, next: int -> int, n: nat)
    requires Inv(s, first, next, n)
    ensures Inv(ReadStep(s, c, active), first, next, n)
  {
    SlotOnSchedule(first, next, n);
    CallMoves(s, c, if active && s.nextRunAt <= s.clock then Due(s.nextRunAt) else Done(Skipped), first, next, n);
  }

  lemma ChooseKeeps(s: State, c: nat, workflow: Workflow, first: int, next: int -> int, n: nat)
    requires Inv(s, first, next, n)
    ensures Inv(ChooseStep(s, c, workflow), first, next, n)
  {
    if c in s.calls && s.calls[c].Due? {
      assert CallOk(s, first, next, n, s.calls[c]);
      CallMoves(s, c, ChooseStep(s, c, workflow).calls[c], first, next, n);
    }
  }

  lemma DoKeeps(s: State, e: Event, first: int, next: int -> int, n: nat) returns (m: nat)
    requires Inv(s, first, next, n)
    ensures n <= m && Inv(Do(s, e, next), first, next, m)
  {
    m := n;
    match e
    case Start(c) => CallMoves(s, c, Reading, first, next, n);
    case Read(c, active) => ReadKeeps(s, c, active, first, next, n);
    case Choose(c, workflow) => ChooseKeeps(s, c, workflow, first, next, n);
    case Advance(c) => if c in s.calls && s.calls[c].Missing? { m := AdvanceKeeps(s, c, first, next, n); }
    case Claim(c, id) => if c in s.calls && s.calls[c].Claiming? { m := ClaimKeeps(s, c, id, first, next, n); }
    case Finish(id) => FinishKeeps(s, id, first, next, n);
    case Tick(ms) => TickKeeps(s, ms, first, next, n);
  }

  lemma TickKeeps(s: State, ms: nat, first: int, next: int -> int, n: nat)
    requires Inv(s, first, next, n)
    ensures Inv(s.(clock := s.clock + ms), first, next, n)
  {
    var t := s.(clock := s.clock + ms);
    assert forall u | u in t.keys :: Executed(s, u) && Executed(t, u);
    assert forall c | c in t.calls :: CallOk(s, first, next, n, s.calls[c]);
  }

  lemma FinishKeeps(s: State, id: string, first: int, next: int -> int, n: nat)
    requires Inv(s, first, next, n)
    ensures Inv(s.(running := s.running - {id}), first, next, n)
  {
    var t := s.(running := s.running - {id});
    assert forall u | u in t.keys :: Executed(s, u) && Executed(t, u);
    assert forall c | c in t.calls :: CallOk(s, first, next, n, s.calls[c]);
  }

  lemma {:induction false} AlwaysInv(es: seq<Event>, first: int, clock: int, guarded: bool, next: int -> int)
    returns (n: nat)
    ensures Inv(DoAll(Fresh(first, clock, guarded), es, next), first, next, n)
  {
    if es == [] {
      n := 0;
    } else {
      var m := AlwaysInv(es[..|es| - 1], first, clock, guarded, next);
      n := DoKeeps(DoAll(Fresh(first, clock, guarded), es[..|es| - 1], next), es[|es| - 1], first, next, m);
    }
  }

  // ----- the promises, in every interleaving

  /** At most one execution per slot, and none before its time. */
  lemma OneExecutionPerSlot(es: seq<Event>, first: int, clock: int, guarded: bool, next: int -> int, x: string,
      y: string)
    requires var s := DoAll(Fresh(first, clock, guarded), es, next);
      x in s.executions && y in s.executions && s.executions[x] == s.executions[y]
    ensures x == y &&
      DoAll(Fresh(first, clock, guarded), es, next).executions[x] <= DoAll(Fresh(first, clock, guarded), es, next).clock
  {
    var n := AlwaysInv(es, first, clock, guarded, next);
  }

  /** The current slot is never already claimed. */
  lemma NextSlotUnclaimed(es: seq<Event>, first: int, clock: int, guarded: bool, next: int -> int)
    requires Later(next)
    ensures var s := DoAll(Fresh(first, clock, guarded), es, next); s.nextRunAt !in s.keys && !Executed(s, s.nextRunAt)
  {
    var n := AlwaysInv(es, first, clock, guarded, next);
    var s := DoAll(Fresh(first, clock, guarded), es, next);
    forall t | t in s.keys
      ensures t < s.nextRunAt
    {
      NextIsBeyond(first, next, n, t);
    }
  }

  /**
   Every slot of the schedule before the current one was executed or skipped on purpose, and nothing else was
   executed.
   */
  lemma PassedSlotsAccounted(es: seq<Event>, first: int, clock: int, guarded: bool, next: int -> int) returns (n: nat)
    ensures var s := DoAll(Fresh(first, clock, guarded), es, next);
      && s.nextRunAt == Slot(first, next, n)
      && (forall k: nat | k < n :: Executed(s, Slot(first, next, k)) || Slot(first, next, k) in s.missed)
      && (forall x | x in s.executions :: OnSchedule(first, next, n, s.executions[x]))
  {
    n := AlwaysInv(es, first, clock, guarded, next);
  }

  /** The current slot only moves forward. */
  lemma {:induction false} NeverBack(es: seq<Event>, fs: seq<Event>, first: int, clock: int, guarded: bool,
      next: int -> int)
    requires Later(next)
    ensures DoAll(Fresh(first, clock, guarded), es, next).nextRunAt <=
      DoAll(Fresh(first, clock, guarded), es + fs, next).nextRunAt
  {
    if fs == [] {
      assert es + fs == es;
    } else {
      NeverBack(es, fs[..|fs| - 1], first, clock, guarded, next);
      assert (es + fs)[..|es + fs| - 1] == es + fs[..|fs| - 1];
      var s := DoAll(Fresh(first, clock, guarded), es + fs[..|fs| - 1], next);
      assert s.nextRunAt < next(s.nextRunAt);
    }
  }

  // ----- the service

  /** A `runDue` call with nothing in between: its steps in the protocol, one after the other. */
  function Alone(s: State, active: bool, workflow: Workflow, id: string, next: int -> int): State {
    var chosen := ChooseStep(ReadStep(s.(calls := map[0 := Reading]), 0, active), 0, workflow);
    ClaimStep(AdvanceStep(chosen, 0, next), 0, id, next)
  }

  function Ended(s: State, result: Result): State {
    s.(calls := map[0 := Done(result)])
  }

  lemma AloneIdles(s: State, active: bool, workflow: Workflow, id: string, next: int -> int)
    requires !active || s.clock < s.nextRunAt
    ensures Alone(s, active, workflow, id, next) == Ended(s, Skipped)
  {
  }

  lemma AloneSkips(s: State, workflow: Workflow, id: string, next: int -> int)
    requires s.nextRunAt <= s.clock && Skips(s, workflow)
    ensures Alone(s, true, workflow, id, next) ==
      Ended(s.(missed := s.missed + {s.nextRunAt}, nextRunAt := next(s.nextRunAt)), Missed)
  {
  }

  lemma AloneFails(s: State, id: string, next: int -> int)
    requires s.nextRunAt <= s.clock
    ensures Alone(s, true, Broken, id, next) == Ended(s, Failed)
  {
  }

  lemma AloneClaims(s: State, id: string, next: int -> int)
    requires s.nextRunAt <= s.clock && !Skips(s, Ready) && id !in s.executions
    ensures Alone(s, true, Ready, id, next) ==
      if s.nextRunAt in s.keys then Ended(s, Duplicate)
      else Ended(Created(s, s.nextRunAt, id).(nextRunAt := next(s.nextRunAt)), Ran(id))
  {
    var chosen := s.(calls := map[0 := Claiming(s.nextRunAt)]);
    assert ChooseStep(ReadStep(s.(calls := map[0 := Reading]), 0, true), 0, Ready) == chosen;
    assert AdvanceStep(chosen, 0, next) == chosen;
  }

  /**
   Whatever happened before, a due call moves the trigger on if and only if the definition is not rejected.
   A rejected definition changes nothing, so every later call finds the same slot due again.
   */
  lemma DueSlotMovesOn(es: seq<Event>, first: int, clock: int, guarded: bool, next: int -> int, workflow: Workflow,
      id: string)
    requires Later(next)
    requires var s := DoAll(Fresh(first, clock, guarded), es, next); s.nextRunAt <= s.clock && id !in s.executions
    ensures var s := DoAll(Fresh(first, clock, guarded), es, next);
      var t := Alone(s, true, workflow, id, next);
      && t.nextRunAt == (if workflow == Broken then s.nextRunAt else next(s.nextRunAt))
      && (t.nextRunAt != s.nextRunAt <==> workflow != Broken)
      && (Skips(s, workflow) <==> workflow == Inactive || (workflow == Ready && s.guarded && s.running != {}))
      && t.missed == (if Skips(s, workflow) then s.missed + {s.nextRunAt} else s.missed)
      && t.executions ==
          (if workflow == Ready && !Skips(s, workflow) then s.executions[id := s.nextRunAt] else s.executions)
      && t.calls[0] == Done(if Skips(s, workflow) then Missed else if workflow == Broken then Failed else Ran(id))
  {
    NextSlotUnclaimed(es, first, clock, guarded, next);
    var s := DoAll(Fresh(first, clock, guarded), es, next);
    assert s.nextRunAt < next(s.nextRunAt);
    if Skips(s, workflow) {
      AloneSkips(s, workflow, id, next);
    } else if workflow == Broken {
      AloneFails(s, id, next);
    } else {
      AloneClaims(s, id, next);
    }
  }

  class Trigger {
    var nextRunAt: int
    var keys: set<int>
    var executions: map<string, int>
    var missed: set<int>
    var running: set<string>
    const guarded: bool

    constructor (first: int, guarded: bool)
      ensures nextRunAt == first && keys == {} && executions == map[] && missed == {} && running == {}
      ensures this.guarded == guarded
    {
      nextRunAt, keys, executions, missed, running, this.guarded := first, {}, map[], {}, {}, guarded;
    }

    function Rows(now: int): State
      reads this
    {
      State(nextRunAt, keys, executions, missed, now, map[], running, guarded)
    }

    method AdvanceMissed(slot: int, after: int)
      modifies this
      ensures nextRunAt == (if old(nextRunAt) == slot then after else old(nextRunAt))
      ensures missed == old(missed) + {slot} && keys == old(keys) && executions == old(executions) &&
        running == old(running)
    {
      missed := missed + {slot};
      if nextRunAt == slot { nextRunAt := after; }
    }

    method RunDue(active: bool, now: int, workflow: Workflow, id: string, next: int -> int) returns (result: Result)
      requires id !in executions
      modifies this
      ensures var s := Alone(old(Rows(now)), active, workflow, id, next);
        s.calls[0] == Done(result) && Rows(now) == s.(calls := map[])
    {
      ghost var rows := Rows(now);
      if !active || nextRunAt > now {
        AloneIdles(rows, active, workflow, id, next);
        return Skipped;
      }
      var slot := nextRunAt;
      var after := next(slot);
      if workflow == Inactive {
        AloneSkips(rows, workflow, id, next);
        AdvanceMissed(slot, after);
        return Missed;
      }
      if workflow == Broken {
        AloneFails(rows, id, next);
        return Failed;
      }
      if guarded && running != {} {
        AloneSkips(rows, workflow, id, next);
        AdvanceMissed(slot, after);
        return Missed;
      }
      AloneClaims(rows, id, next);
      if slot in keys { return Duplicate; }
      keys := keys + {slot};
      executions := executions[id := slot];
      running := running + {id};
      if nextRunAt == slot { nextRunAt := after; }
      result := Ran(id);
    }
  }
}
