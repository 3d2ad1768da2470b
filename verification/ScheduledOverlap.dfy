/**
 When `skip_if_running` lets two executions of one scheduled trigger run at the same time. The check for an
 active execution and the transaction that creates one are separate steps, so the policy holds only in part.
 */
module ScheduledOverlap {
  import opened ScheduledSlots

  ghost predicate Overlap(s: State) {
    exists x, y :: x in s.running && y in s.running && x != y
  }

  /** Whatever runs for a slot before that of another execution, or of a call past its check, has a skipped slot. */
  ghost predicate Apart(s: State) {
    && (forall x | x in s.running :: x in s.executions)
    && (forall x, y | x in s.running && y in s.running && s.executions[x] < s.executions[y] ::
        s.executions[x] in s.missed)
    && (forall x, c | x in s.running && c in s.calls && s.calls[c].Claiming? && s.executions[x] < s.calls[c].slot ::
          s.executions[x] in s.missed)
  }

  /** A slot without a key that lies before another one in use has been skipped. */
  lemma UnclaimedIsMissed(s: State, first: int, next: int -> int, n: nat, slot: int, later: int)
    requires Later(next) && Inv(s, first, next, n) && slot !in s.keys && slot < later
    requires OnSchedule(first, next, n + 1, slot) && OnSchedule(first, next, n + 1, later)
    ensures slot in s.missed
  {
    var k: nat :| k < n + 1 && Slot(first, next, k) == slot;
    var j: nat :| j < n + 1 && Slot(first, next, j) == later;
    if k == n && j < n { SlotsRise(first, next, j, n); }
  }

  /** Creating an execution; `t` differs from `s` in what the transaction writes. */
  lemma CreateApart(s: State, t: State, id: string, slot: int)
    requires Apart(s) && id !in s.executions
    requires t.running == s.running + {id} && t.executions == s.executions[id := slot] && t.missed == s.missed
    requires forall c | c in t.calls && t.calls[c].Claiming? :: c in s.calls && t.calls[c] == s.calls[c]
    requires exists c :: c in s.calls && s.calls[c].Claiming? && s.calls[c].slot == slot
    requires forall y | y in s.running && slot < s.executions[y] :: slot in s.missed
    requires forall c | c in s.calls && s.calls[c].Claiming? && slot < s.calls[c].slot :: slot in s.missed
    ensures Apart(t)
  {
    var c :| c in s.calls && s.calls[c].Claiming? && s.calls[c].slot == slot;
  }

  lemma ClaimApart(s: State, c: nat, id: string, first: int, next: int -> int, n: nat)
    requires Later(next) && Inv(s, first, next, n) && Apart(s)
    ensures Apart(ClaimStep(s, c, id, next))
  {
    if c in s.calls && s.calls[c].Claiming? && s.calls[c].slot !in s.keys && id !in s.executions {
      var slot := s.calls[c].slot;
      assert CallOk(s, first, next, n, s.calls[c]);
      forall y | y in s.running && slot < s.executions[y]
        ensures slot in s.missed
      {
        ScheduleGrows(first, next, n, s.executions[y]);
        UnclaimedIsMissed(s, first, next, n, slot, s.executions[y]);
      }
      forall d | d in s.calls && s.calls[d].Claiming? && slot < s.calls[d].slot
        ensures slot in s.missed
      {
        assert CallOk(s, first, next, n, s.calls[d]);
        UnclaimedIsMissed(s, first, next, n, slot, s.calls[d].slot);
      }
      CreateApart(s, ClaimStep(s, c, id, next), id, slot);
    }
  }

  /** A step that starts nothing: calls may pass the check only while nothing runs. */
  lemma QuietApart(s: State, t: State)
    requires Apart(s) && t.running <= s.running && t.executions == s.executions && s.missed <= t.missed
    requires forall c | c in t.calls && t.calls[c].Claiming? ::
      t.running == {} || (c in s.calls && t.calls[c] == s.calls[c])
    ensures Apart(t)
  {
  }

  lemma ChooseApart(s: State, c: nat, workflow: Workflow)
    requires Apart(s) && s.guarded
    ensures Apart(ChooseStep(s, c, workflow))
  {
    QuietApart(s, ChooseStep(s, c, workflow));
  }

  lemma AdvanceApart(s: State, c: nat, next: int -> int)
    requires Apart(s)
    ensures Apart(AdvanceStep(s, c, next))
  {
    QuietApart(s, AdvanceStep(s, c, next));
  }

  lemma StepApart(s: State, e: Event, first: int, next: int -> int, n: nat)
    requires Later(next) && Inv(s, first, next, n) && Apart(s) && s.guarded
    ensures Apart(Do(s, e, next))
  {
    match e
    case Claim(c, id) => ClaimApart(s, c, id, first, next, n);
    case Choose(c, workflow) => ChooseApart(s, c, workflow);
    case Advance(c) => AdvanceApart(s, c, next);
    case _ => QuietApart(s, Do(s, e, next));
  }

  lemma {:induction false} AlwaysApart(es: seq<Event>, first: int, clock: int, next: int -> int)
    requires Later(next)
    ensures Apart(DoAll(Fresh(first, clock, true), es, next)) && DoAll(Fresh(first, clock, true), es, next).guarded
  {
    if es != [] {
      var before := es[..|es| - 1];
      AlwaysApart(before, first, clock, next);
      var n := AlwaysInv(before, first, clock, true, next);
      StepApart(DoAll(Fresh(first, clock, true), before, next), es[|es| - 1], first, next, n);
    }
  }

  // ----- the promise of the policy, and how far it goes

  function Earlier(a: int, b: int): int {
    if a < b then a else b
  }

  /** Of two executions that run at once, the one with the earlier slot runs a slot that was also skipped. */
  lemma OverlapNeedsSkip(es: seq<Event>, first: int, clock: int, next: int -> int, x: string, y: string)
    requires Later(next)
    requires var s := DoAll(Fresh(first, clock, true), es, next); x in s.running && y in s.running && x != y
    ensures var s := DoAll(Fresh(first, clock, true), es, next);
      && x in s.executions && y in s.executions && s.executions[x] != s.executions[y]
      && Earlier(s.executions[x], s.executions[y]) in s.missed
  {
    AlwaysApart(es, first, clock, next);
    var n := AlwaysInv(es, first, clock, true, next);
  }

  /** As long as no slot is both skipped and executed, at most one execution runs. */
  lemma NoOverlapWithoutBoth(es: seq<Event>, first: int, clock: int, next: int -> int)
    requires Later(next) && var s := DoAll(Fresh(first, clock, true), es, next); s.keys !! s.missed
    ensures !Overlap(DoAll(Fresh(first, clock, true), es, next))
  {
    var s := DoAll(Fresh(first, clock, true), es, next);
    var n := AlwaysInv(es, first, clock, true, next);
    forall x, y | x in s.running && y in s.running
      ensures x == y
    {
      if x != y { OverlapNeedsSkip(es, first, clock, next, x, y); }
    }
  }

  lemma OneMore(s: State, t: State, id: string)
    requires t.running == s.running + {id} && id !in s.running
    ensures Overlap(t) <==> s.running != {}
  {
    if x :| x in s.running {
      assert x in t.running && id in t.running && x != id;
    }
  }

  lemma ClaimCreates(s: State, c: nat, id: string, next: int -> int)
    requires c in s.calls && s.calls[c].Claiming? && s.calls[c].slot !in s.keys && id !in s.executions
    ensures var t := ClaimStep(s, c, id, next);
      && t.running == s.running + {id} && t.executions == s.executions[id := s.calls[c].slot] && t.missed == s.missed
      && t.keys == s.keys + {s.calls[c].slot} && t.calls == s.calls[c := Done(Ran(id))]
  {
  }

  /** The execution runs another slot than `slot`, and the earlier of the two was skipped. */
  ghost predicate Crosses(s: State, slot: int, x: string) {
    x in s.executions && s.executions[x] != slot && Earlier(s.executions[x], slot) in s.missed
  }

  lemma RunnerCrosses(s: State, t: State, slot: int, id: string, x: string)
    requires Apart(s) && Apart(t) && (forall y | y in s.executions :: s.executions[y] in s.keys)
    requires slot !in s.keys && id !in s.executions && x in s.running
    requires t.running == s.running + {id} && t.executions == s.executions[id := slot] && t.missed == s.missed
    ensures Crosses(s, slot, x)
  {
    assert x in t.running && id in t.running && t.executions[x] == s.executions[x];
  }

  ghost predicate LaterRuns(s: State, slot: int) {
    exists x :: x in s.running && x in s.executions && slot < s.executions[x]
  }

  /** While no slot is both skipped and executed, whatever runs keeps a call past its check off earlier slots. */
  lemma RunnerIsLater(s: State, t: State, c: nat, id: string, x: string)
    requires Apart(s) && Apart(t) && (forall y | y in s.executions :: s.executions[y] in s.keys) && s.keys !! s.missed
    requires c in s.calls && s.calls[c].Claiming? && s.calls[c].slot !in s.keys && id !in s.executions && x in s.running
    requires t.running == s.running + {id} && t.executions == s.executions[id := s.calls[c].slot] &&
      t.missed == s.missed
    ensures s.calls[c].slot in s.missed && s.calls[c].slot < s.executions[x]
  {
    assert x in t.running && id in t.running && t.executions[x] == s.executions[x];
  }

  /**
   A call past its check makes two executions run if and only if some execution runs another slot and the earlier
   of the two slots was skipped; whatever runs by then is of this kind. While no slot is both skipped and executed,
   the earlier slot is that of the call: another call skipped it since it was read.
   */
  lemma OverlapExactly(es: seq<Event>, first: int, clock: int, next: int -> int, c: nat, id: string)
    requires Later(next)
    requires var s := DoAll(Fresh(first, clock, true), es, next);
      c in s.calls && s.calls[c].Claiming? && s.calls[c].slot !in s.keys && id !in s.executions
    ensures var s := DoAll(Fresh(first, clock, true), es, next);
      Overlap(ClaimStep(s, c, id, next)) <==> exists x :: x in s.running && Crosses(s, s.calls[c].slot, x)
    ensures var s := DoAll(Fresh(first, clock, true), es, next);
      forall x | x in s.running :: Crosses(s, s.calls[c].slot, x)
    ensures var s := DoAll(Fresh(first, clock, true), es, next);
      s.keys !! s.missed ==>
        (Overlap(ClaimStep(s, c, id, next)) <==> s.calls[c].slot in s.missed && LaterRuns(s, s.calls[c].slot))
  {
    var s := DoAll(Fresh(first, clock, true), es, next);
    var t := ClaimStep(s, c, id, next);
    AlwaysApart(es, first, clock, next);
    var n := AlwaysInv(es, first, clock, true, next);
    ClaimApart(s, c, id, first, next, n);
    ClaimCreates(s, c, id, next);
    OneMore(s, t, id);
    forall x | x in s.running
      ensures Crosses(s, s.calls[c].slot, x)
    {
      RunnerCrosses(s, t, s.calls[c].slot, id, x);
    }
    if s.keys !! s.missed && s.running != {} {
      var x :| x in s.running;
      RunnerIsLater(s, t, c, id, x);
      assert LaterRuns(s, s.calls[c].slot);
    }
  }

  // ----- an overlap

  lemma {:induction false} DoAllJoin(s: State, es: seq<Event>, fs: seq<Event>, next: int -> int)
    ensures DoAll(s, es + fs, next) == DoAll(DoAll(s, es, next), fs, next)
  {
    if fs == [] {
      assert es + fs == es;
    } else {
      DoAllJoin(s, es, fs[..|fs| - 1], next);
      assert (es + fs)[..|es + fs| - 1] == es + fs[..|fs| - 1];
    }
  }

  lemma DoOne(s: State, e: Event, next: int -> int)
    ensures DoAll(s, [e], next) == Do(s, e, next)
  {
    assert DoAll(s, [e][..0], next) == s;
  }

  lemma DoThree(s: State, d: Event, e: Event, f: Event, next: int -> int)
    ensures DoAll(s, [d, e, f], next) == Do(Do(Do(s, d, next), e, next), f, next)
  {
    assert [d, e, f] == [d] + [e] + [f];
    DoAllJoin(s, [d] + [e], [f], next);
    DoAllJoin(s, [d], [e], next);
    DoOne(s, d, next);
    DoOne(Do(s, d, next), e, next);
    DoOne(Do(Do(s, d, next), e, next), f, next);
  }

  /** A new call reads the current slot and looks at the workflow, which is ready. */
  function Arrives(c: nat): seq<Event> {
    [Start(c), Read(c, true), Choose(c, Ready)]
  }

  lemma ArrivesDue(s: State, c: nat, next: int -> int)
    requires c !in s.calls && s.nextRunAt <= s.clock
    ensures DoAll(s, Arrives(c), next) ==
      Move(s, c, if Skips(s, Ready) then Missing(s.nextRunAt) else Claiming(s.nextRunAt))
  {
    var s1, s2 := Move(s, c, Reading), Move(s, c, Due(s.nextRunAt));
    DoThree(s, Start(c), Read(c, true), Choose(c, Ready), next);
    assert ReadStep(s1, c, true) == s2;
    assert s2.calls[c := Claiming(s.nextRunAt)] == s.calls[c := Claiming(s.nextRunAt)];
    assert s2.calls[c := Missing(s.nextRunAt)] == s.calls[c := Missing(s.nextRunAt)];
  }

  lemma FirstRun(s: State, next: int -> int)
    requires s.guarded && s.running == {} && s.keys == {} && s.executions == map[] && s.calls == map[]
    requires s.nextRunAt <= s.clock
    ensures DoAll(s, Arrives(0) + [Claim(0, "a")], next) ==
      State(next(s.nextRunAt), {s.nextRunAt}, map["a" := s.nextRunAt], s.missed, s.clock,
            map[0 := Done(Ran("a"))], {"a"}, true)
  {
    var t := Move(s, 0, Claiming(s.nextRunAt));
    DoAllJoin(s, Arrives(0), [Claim(0, "a")], next);
    ArrivesDue(s, 0, next);
    DoOne(t, Claim(0, "a"), next);
    ClaimCreates(t, 0, "a", next);
  }

  /** Call 0 runs the first slot; call 1 finds that execution running and is about to skip the second slot. */
  lemma FirstHalf(s: State, next: int -> int)
    requires Later(next) && s.guarded && s.running == {} && s.keys == {} && s.executions == map[] && s.calls == map[]
    requires next(s.nextRunAt) <= s.clock
    ensures DoAll(s, Arrives(0) + [Claim(0, "a")] + Arrives(1), next) ==
      State(next(s.nextRunAt), {s.nextRunAt}, map["a" := s.nextRunAt], s.missed, s.clock,
            map[0 := Done(Ran("a")), 1 := Missing(next(s.nextRunAt))], {"a"}, true)
  {
    var slot := s.nextRunAt;
    assert slot < next(slot);
    var t := State(next(slot), {slot}, map["a" := slot], s.missed, s.clock, map[0 := Done(Ran("a"))], {"a"}, true);
    FirstRun(s, next);
    DoAllJoin(s, Arrives(0) + [Claim(0, "a")], Arrives(1), next);
    ArrivesDue(t, 1, next);
    assert Skips(t, Ready);
  }

  lemma AdvanceSkips(s: State, c: nat, next: int -> int)
    requires c in s.calls && s.calls[c] == Missing(s.nextRunAt)
    ensures AdvanceStep(s, c, next) ==
      s.(missed := s.missed + {s.nextRunAt}, nextRunAt := next(s.nextRunAt), calls := s.calls[c := Done(Missed)])
  {
  }

  /** The execution ends. Call 2 finds nothing running and is about to run the slot that call 1 now skips. */
  lemma RunsAndSkips(s: State, next: int -> int)
    requires s.running == {"a"} && s.nextRunAt <= s.clock
    requires 1 in s.calls && s.calls[1] == Missing(s.nextRunAt) && 2 !in s.calls
    ensures DoAll(s, [Finish("a")] + Arrives(2) + [Advance(1)], next) ==
      s.(running := {}, missed := s.missed + {s.nextRunAt}, nextRunAt := next(s.nextRunAt),
         calls := s.calls[2 := Claiming(s.nextRunAt)][1 := Done(Missed)])
  {
    var ended := s.(running := {});
    var both := Move(ended, 2, Claiming(s.nextRunAt));
    DoAllJoin(s, [Finish("a")] + Arrives(2), [Advance(1)], next);
    DoAllJoin(s, [Finish("a")], Arrives(2), next);
    DoOne(s, Finish("a"), next);
    assert Do(s, Finish("a"), next) == ended;
    ArrivesDue(ended, 2, next);
    assert !Skips(ended, Ready);
    DoOne(both, Advance(1), next);
    AdvanceSkips(both, 1, next);
  }

  /** Call 3 finds nothing running either and is about to run the slot after it. */
  lemma SecondHalf(s: State, next: int -> int)
    requires Later(next) && s.running == {"a"} && next(s.nextRunAt) <= s.clock
    requires 1 in s.calls && s.calls[1] == Missing(s.nextRunAt) && 2 !in s.calls && 3 !in s.calls
    ensures var t := DoAll(s, [Finish("a")] + Arrives(2) + [Advance(1)] + Arrives(3), next);
      && t.keys == s.keys && t.executions == s.executions && t.running == {}
      && 2 in t.calls && t.calls[2] == Claiming(s.nextRunAt)
      && 3 in t.calls && t.calls[3] == Claiming(next(s.nextRunAt))
  {
    assert s.nextRunAt < next(s.nextRunAt);
    RunsAndSkips(s, next);
    var t := DoAll(s, [Finish("a")] + Arrives(2) + [Advance(1)], next);
    DoAllJoin(s, [Finish("a")] + Arrives(2) + [Advance(1)], Arrives(3), next);
    ArrivesDue(t, 3, next);
    assert !Skips(t, Ready);
  }

  /** Both create their executions. */
  lemma BothCreate(s: State, slot: int, next: int -> int)
    requires Later(next) && s.running == {} && s.executions == map["a" := slot] && s.keys == {slot}
    requires 2 in s.calls && 3 in s.calls && s.calls[2].Claiming? && s.calls[3].Claiming?
    requires slot < s.calls[2].slot < s.calls[3].slot
    ensures var t := DoAll(s, [Claim(3, "b"), Claim(2, "c")], next);
      t.running == {"b", "c"} && t.executions == map["a" := slot, "b" := s.calls[3].slot, "c" := s.calls[2].slot]
  {
    assert [Claim(3, "b"), Claim(2, "c")] == [Claim(3, "b")] + [Claim(2, "c")];
    DoAllJoin(s, [Claim(3, "b")], [Claim(2, "c")], next);
    DoOne(s, Claim(3, "b"), next);
    var t := ClaimStep(s, 3, "b", next);
    ClaimCreates(s, 3, "b", next);
    DoOne(t, Claim(2, "c"), next);
    ClaimCreates(t, 2, "c", next);
  }

  /** Two executions at once, although the workflow is ready all along and every call makes the check. */
  function Race(wait: nat): seq<Event> {
    [Tick(wait)] + (Arrives(0) + [Claim(0, "a")] + Arrives(1))
      + ([Finish("a")] + Arrives(2) + [Advance(1)] + Arrives(3)) + [Claim(3, "b"), Claim(2, "c")]
  }

  lemma OverlapIsReached(first: int, clock: int, next: int -> int, wait: nat)
    requires Later(next) && next(next(first)) <= clock + wait
    ensures var s := DoAll(Fresh(first, clock, true), Race(wait), next);
      && Overlap(s) && s.running == {"b", "c"}
      && s.executions == map["a" := first, "b" := next(next(first)), "c" := next(first)]
  {
    var one, two := Arrives(0) + [Claim(0, "a")] + Arrives(1), [Finish("a")] + Arrives(2) + [Advance(1)] + Arrives(3);
    var s := Fresh(first, clock, true);
    assert first < next(first) < next(next(first));
    DoAllJoin(s, [Tick(wait)] + one + two, [Claim(3, "b"), Claim(2, "c")], next);
    DoAllJoin(s, [Tick(wait)] + one, two, next);
    DoAllJoin(s, [Tick(wait)], one, next);
    DoOne(s, Tick(wait), next);
    var s1 := Fresh(first, clock + wait, true);
    assert Do(s, Tick(wait), next) == s1;
    FirstHalf(s1, next);
    var s2 := DoAll(s1, one, next);
    SecondHalf(s2, next);
    var s3 := DoAll(s2, two, next);
    BothCreate(s3, first, next);
    var t := DoAll(s3, [Claim(3, "b"), Claim(2, "c")], next);
    assert "b" in t.running && "c" in t.running && "b" != "c";
  }
}
