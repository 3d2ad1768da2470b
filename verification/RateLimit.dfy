/** The fixed-window limiter of connection tests, measured over sliding intervals. */
module RateLimit {
  import opened Text

  const WINDOW := 60_000
  const MAX := 20

  datatype Counter = Counter(count: nat, resetAt: int)

  function Counted(c: Option<Counter>, now: int): Counter {
    if c.None? || c.value.resetAt < now then Counter(1, now + WINDOW) else Counter(c.value.count + 1, c.value.resetAt)
  }

  /** The counters of all keys, each an organization with a user; a test is refused by throwing. */
  class Limiter {
    var counters: map<string, Counter>

    constructor ()
      ensures counters == map[]
    {
      counters := map[];
    }

    method Test(key: string, now: int) returns (allowed: bool)
      modifies this
      ensures counters == old(counters)[key := Counted(Lookup(old(counters), key), now)]
      ensures allowed <==> counters[key].count <= MAX
    {
      if key !in counters || counters[key].resetAt < now {
        counters := counters[key := Counter(1, now + WINDOW)];
        return true;
      }
      counters := counters[key := counters[key].(count := counters[key].count + 1)];
      allowed := counters[key].count <= MAX;
    }
  }

  function Lookup(counters: map<string, Counter>, key: string): Option<Counter> {
    if key in counters then Some(counters[key]) else None
  }

  datatype Request = Request(key: string, time: int)

  /** The counters after a history of requests. */
  function CountersAfter(history: seq<Request>): map<string, Counter> {
    if history == [] then map[] else
    var before, r := CountersAfter(history[..|history| - 1]), history[|history| - 1];
    before[r.key := Counted(Lookup(before, r.key), r.time)]
  }

  /** An allowed test. `window` is the start of the window that counted it. */
  datatype Entry = Entry(time: int, window: int)

  /** The counter of one key and its allowed tests. */
  datatype Log = Log(counter: Option<Counter>, allowed: seq<Entry>)

  function Tested(log: Log, time: int): Log {
    var c := Counted(log.counter, time);
    Log(Some(c), if c.count <= MAX then log.allowed + [Entry(time, c.resetAt - WINDOW)] else log.allowed)
  }

  function LogOf(history: seq<Request>, key: string): Log {
    if history == [] then Log(None, []) else
    var before, r := LogOf(history[..|history| - 1], key), history[|history| - 1];
    if r.key == key then Tested(before, r.time) else before
  }

  /** The log of a key follows its counter in the shared table. */
  lemma {:induction false} LogFollowsCounters(history: seq<Request>, key: string)
    ensures LogOf(history, key).counter == Lookup(CountersAfter(history), key)
  {
    if history != [] { LogFollowsCounters(history[..|history| - 1], key); }
  }

  ghost predicate ClockRuns(history: seq<Request>) {
    forall i, j | 0 <= i < j < |history| :: history[i].time <= history[j].time
  }

  function Smaller(a: int, b: int): int {
    if a < b then a else b
  }

  /** The test is the first of its window. */
  ghost predicate Opens(a: seq<Entry>, j: int)
    requires 0 <= j < |a|
  {
    j == 0 || a[j - 1].window != a[j].window
  }

  /** Each test lies in its window. */
  ghost predicate Inside(a: seq<Entry>) {
    forall i | 0 <= i < |a| :: a[i].window <= a[i].time <= a[i].window + WINDOW
  }

  /** Different windows are apart by more than a window length. */
  ghost predicate Spaced(a: seq<Entry>) {
    forall i, j | 0 <= i < j < |a| :: a[i].window == a[j].window || a[i].window + WINDOW < a[j].window
  }

  /** A window holds at most MAX tests. */
  ghost predicate Capped(a: seq<Entry>) {
    forall i, j | 0 <= i && i + MAX <= j < |a| :: a[i].window != a[j].window
  }

  /** The first test of a window opens it. */
  ghost predicate Opened(a: seq<Entry>) {
    forall j {:trigger Opens(a, j)} | 0 <= j < |a| && Opens(a, j) :: a[j].time == a[j].window
  }

  /** The windows of the allowed tests. */
  ghost predicate Windows(a: seq<Entry>) {
    Inside(a) && Spaced(a) && Capped(a) && Opened(a)
  }

  /** The counter agrees with the allowed tests, all of them in the past. */
  ghost predicate Agrees(a: seq<Entry>, c: Option<Counter>, now: int) {
    && (forall i, j | 0 <= i < j < |a| :: a[i].time <= a[j].time)
    && (forall i | 0 <= i < |a| :: a[i].time <= now)
    && (c.None? ==> a == [])
    && (c.Some? ==>
          && a != [] && 1 <= c.value.count && a[|a| - 1].window + WINDOW == c.value.resetAt
          && (forall i | 0 <= i < |a| - Smaller(c.value.count, MAX) :: a[i].window != a[|a| - 1].window)
          && (forall i | 0 <= i < |a| && i >= |a| - Smaller(c.value.count, MAX) :: a[i].window == a[|a| - 1].window)
          && Smaller(c.value.count, MAX) <= |a|)
  }

  lemma OpenedMore(a: seq<Entry>, e: Entry)
    requires Opened(a) && ((a != [] && a[|a| - 1].window == e.window) || e.time == e.window)
    ensures Opened(a + [e])
  {
    var b := a + [e];
    assert forall j {:trigger Opens(b, j)} | 0 <= j < |a| :: b[j] == a[j] && (Opens(b, j) <==> Opens(a, j));
    assert a != [] && a[|a| - 1].window == e.window ==> !Opens(b, |a|);
  }

  lemma SpacedMore(a: seq<Entry>, e: Entry)
    requires Spaced(a) && forall i | 0 <= i < |a| :: a[i].window == e.window || a[i].window + WINDOW < e.window
    ensures Spaced(a + [e])
  {
  }

  lemma CappedMore(a: seq<Entry>, e: Entry)
    requires Capped(a) && forall i | 0 <= i <= |a| - MAX :: a[i].window != e.window
    ensures Capped(a + [e])
  {
  }

  /** A test that opens a new window. */
  lemma OpensWindow(a: seq<Entry>, t: int)
    requires Windows(a) && forall i | 0 <= i < |a| :: a[i].window + WINDOW < t
    ensures Windows(a + [Entry(t, t)])
  {
    OpenedMore(a, Entry(t, t));
    SpacedMore(a, Entry(t, t));
    CappedMore(a, Entry(t, t));
  }

  /** A test that still counts in the last window, which holds fewer than MAX tests. */
  lemma JoinsWindow(a: seq<Entry>, n: nat, t: int)
    requires Windows(a) && 1 <= n < MAX && n <= |a| && a[|a| - 1].time <= t <= a[|a| - 1].window + WINDOW
    requires forall i | 0 <= i < |a| - n :: a[i].window != a[|a| - 1].window
    ensures Windows(a + [Entry(t, a[|a| - 1].window)])
  {
    var e := Entry(t, a[|a| - 1].window);
    OpenedMore(a, e);
    SpacedMore(a, e);
    CappedMore(a, e);
  }

  ghost predicate Sound(log: Log, now: int) {
    Windows(log.allowed) && Agrees(log.allowed, log.counter, now)
  }

  lemma TestKeepsSound(log: Log, now: int, t: int)
    requires Sound(log, now) && now <= t
    ensures Sound(Tested(log, t), t)
  {
    if log.counter.None? || log.counter.value.resetAt < t {
      OpenSound(log, now, t);
    } else if log.counter.value.count < MAX {
      JoinSound(log, now, t);
    } else {
      FullSound(log, now, t);
    }
  }

  lemma TestedOpens(log: Log, t: int)
    requires log.counter.None? || log.counter.value.resetAt < t
    ensures Tested(log, t) == Log(Some(Counter(1, t + WINDOW)), log.allowed + [Entry(t, t)])
  {
  }

  lemma TestedJoins(log: Log, t: int)
    requires log.counter.Some? && t <= log.counter.value.resetAt && log.counter.value.count < MAX
    ensures var c := log.counter.value;
      Tested(log, t) == Log(Some(Counter(c.count + 1, c.resetAt)), log.allowed + [Entry(t, c.resetAt - WINDOW)])
  {
  }

  lemma TestedRefuses(log: Log, t: int)
    requires log.counter.Some? && t <= log.counter.value.resetAt && log.counter.value.count >= MAX
    ensures var c := log.counter.value; Tested(log, t) == Log(Some(Counter(c.count + 1, c.resetAt)), log.allowed)
  {
  }

  lemma OpenSound(log: Log, now: int, t: int)
    requires Sound(log, now) && now <= t && (log.counter.None? || log.counter.value.resetAt < t)
    ensures Sound(Tested(log, t), t)
  {
    OpenAgrees(log.allowed, log.counter, now, t);
    OpensWindow(log.allowed, t);
    TestedOpens(log, t);
  }

  lemma JoinSound(log: Log, now: int, t: int)
    requires Sound(log, now) && now <= t && log.counter.Some? && t <= log.counter.value.resetAt &&
      log.counter.value.count < MAX
    ensures Sound(Tested(log, t), t)
  {
    var a, c := log.allowed, log.counter.value;
    JoinAgrees(a, c, now, t);
    JoinWindows(a, c, now, t);
    TestedJoins(log, t);
    SoundParts(Tested(log, t), a + [Entry(t, c.resetAt - WINDOW)], Counter(c.count + 1, c.resetAt), t);
  }

  lemma SoundParts(log: Log, a: seq<Entry>, c: Counter, t: int)
    requires log == Log(Some(c), a) && Windows(a) && Agrees(a, Some(c), t)
    ensures Sound(log, t)
  {
  }

  lemma JoinWindows(a: seq<Entry>, c: Counter, now: int, t: int)
    requires Windows(a) && Agrees(a, Some(c), now) && now <= t <= c.resetAt && c.count < MAX
    ensures Windows(a + [Entry(t, c.resetAt - WINDOW)])
  {
    assert a[|a| - 1].window == c.resetAt - WINDOW && Smaller(c.count, MAX) == c.count;
    JoinsWindow(a, c.count, t);
  }

  lemma FullSound(log: Log, now: int, t: int)
    requires Sound(log, now) && now <= t && log.counter.Some? && t <= log.counter.value.resetAt &&
      log.counter.value.count >= MAX
    ensures Sound(Tested(log, t), t)
  {
    var c := log.counter.value;
    assert Smaller(c.count + 1, MAX) == Smaller(c.count, MAX);
    assert Agrees(log.allowed, Some(Counter(c.count + 1, c.resetAt)), t);
    TestedRefuses(log, t);
  }

  lemma OpenAgrees(a: seq<Entry>, c: Option<Counter>, now: int, t: int)
    requires Windows(a) && Agrees(a, c, now) && now <= t && (c.None? || c.value.resetAt < t)
    ensures forall i | 0 <= i < |a| :: a[i].window + WINDOW < t
    ensures Agrees(a + [Entry(t, t)], Some(Counter(1, t + WINDOW)), t)
  {
    assert forall i | 0 <= i < |a| :: a[i].window <= a[|a| - 1].window;
    var b := a + [Entry(t, t)];
    assert forall i | 0 <= i < |a| :: b[i] == a[i];
  }

  lemma JoinAgrees(a: seq<Entry>, c: Counter, now: int, t: int)
    requires Agrees(a, Some(c), now) && now <= t && c.count < MAX
    ensures Agrees(a + [Entry(t, c.resetAt - WINDOW)], Some(Counter(c.count + 1, c.resetAt)), t)
  {
    var b := a + [Entry(t, c.resetAt - WINDOW)];
    assert forall i | 0 <= i < |a| :: b[i] == a[i];
  }

  lemma {:induction false} AlwaysSound(history: seq<Request>, key: string, now: int)
    requires ClockRuns(history) && forall i | 0 <= i < |history| :: history[i].time <= now
    ensures Sound(LogOf(history, key), now)
  {
    if history != [] {
      var before, r := history[..|history| - 1], history[|history| - 1];
      AlwaysSound(before, key, r.time);
      if r.key == key { TestKeepsSound(LogOf(before, key), r.time, r.time); }
    }
  }

  /** The last 20 allowed tests fill a window that the first of them opened at most 60 000 ms ago. */
  ghost predicate Full(a: seq<Entry>, t: int) {
    && |a| >= MAX && a[|a| - MAX].window == a[|a| - 1].window
    && a[|a| - MAX].time == a[|a| - MAX].window && t <= a[|a| - MAX].time + WINDOW
  }

  lemma FullExactly(log: Log, now: int, t: int)
    requires Sound(log, now) && now <= t
    ensures Full(log.allowed, t) <==>
      log.counter.Some? && t <= log.counter.value.resetAt && log.counter.value.count >= MAX
  {
    var a := log.allowed;
    if log.counter.Some? && log.counter.value.count >= MAX {
      assert Opens(a, |a| - MAX);
    }
  }

  /** A test is refused exactly when the open window is full. One that is allowed is recorded at its time. */
  lemma RefusedExactly(history: seq<Request>, key: string, t: int)
    requires ClockRuns(history) && forall i | 0 <= i < |history| :: history[i].time <= t
    ensures var before, after := LogOf(history, key).allowed, LogOf(history + [Request(key, t)], key).allowed;
      if Full(before, t) then after == before
      else |after| == |before| + 1 && before <= after && after[|before|].time == t
  {
    AlwaysSound(history, key, t);
    FullExactly(LogOf(history, key), t, t);
    assert (history + [Request(key, t)])[..|history|] == history;
  }

  /** Forty allowed tests in a row always span more than one window length. */
  lemma FortySpanMore(a: seq<Entry>, i: nat)
    requires Windows(a) && i + 2 * MAX - 1 < |a|
    ensures a[i + 2 * MAX - 1].time > a[i].time + WINDOW
  {
    var j, k := i + MAX - 1, i + 2 * MAX - 1;
    assert a[j].window != a[k].window;
    if a[i].window == a[j].window {
      // Then i opened its window, so the next MAX tests belong to later windows.
      assert Opens(a, i);
    } else {
      assert a[i].window + WINDOW < a[j].window;
    }
  }

  /** How many of the allowed tests lie in the closed interval of one window length from `x`. */
  function CountWithin(a: seq<Entry>, x: int): nat {
    if a == [] then 0 else
    CountWithin(a[..|a| - 1], x) + if x <= a[|a| - 1].time <= x + WINDOW then 1 else 0
  }

  lemma {:induction false} CountOnlyLast(a: seq<Entry>, x: int, n: nat)
    requires forall i | 0 <= i < |a| - n :: !(x <= a[i].time <= x + WINDOW)
    ensures CountWithin(a, x) <= n
  {
    if a != [] {
      if n == 0 { CountOnlyLast(a[..|a| - 1], x, 0); } else { CountOnlyLast(a[..|a| - 1], x, n - 1); }
    }
  }

  lemma {:induction false} CountBound(a: seq<Entry>, x: int, m: nat)
    requires Windows(a) && m <= |a|
    requires forall i, j | 0 <= i < j < |a| :: a[i].time <= a[j].time
    ensures CountWithin(a[..m], x) <= 2 * MAX - 1
  {
    if m > 0 {
      assert a[..m][..m - 1] == a[..m - 1];
      CountBound(a, x, m - 1);
      if x <= a[m - 1].time <= x + WINDOW {
        forall i | 0 <= i < m - (2 * MAX - 1)
          ensures a[i].time < x
        {
          FortySpanMore(a, i);
        }
        CountOnlyLast(a[..m], x, 2 * MAX - 1);
      }
    }
  }

  /** In any closed interval of 60 000 ms a key gets at most 39 tests, one less than two full windows. */
  lemma SlidingBound(history: seq<Request>, key: string, x: int)
    requires ClockRuns(history)
    ensures CountWithin(LogOf(history, key).allowed, x) <= 2 * MAX - 1
  {
    if history != [] {
      AlwaysSound(history, key, history[|history| - 1].time);
      var a := LogOf(history, key).allowed;
      CountBound(a, x, |a|);
      assert a[..|a|] == a;
    }
  }

  // ----- the bound is reached

  function Burst(key: string, time: int, n: nat): seq<Request> {
    if n == 0 then [] else Burst(key, time, n - 1) + [Request(key, time)]
  }

  function Same(e: Entry, n: nat): seq<Entry> {
    if n == 0 then [] else Same(e, n - 1) + [e]
  }

  lemma OneMore(history: seq<Request>, key: string, time: int)
    ensures LogOf(history + [Request(key, time)], key) == Tested(LogOf(history, key), time)
  {
    assert (history + [Request(key, time)])[..|history|] == history;
  }

  function TestedTimes(log: Log, time: int, n: nat): Log {
    if n == 0 then log else Tested(TestedTimes(log, time, n - 1), time)
  }

  lemma {:induction false} BurstTests(history: seq<Request>, key: string, time: int, n: nat)
    ensures LogOf(history + Burst(key, time, n), key) == TestedTimes(LogOf(history, key), time, n)
  {
    if n == 0 {
      assert history + Burst(key, time, n) == history;
    } else {
      BurstTests(history, key, time, n - 1);
      OneMore(history + Burst(key, time, n - 1), key, time);
      assert history + Burst(key, time, n) == history + Burst(key, time, n - 1) + [Request(key, time)];
    }
  }

  lemma {:induction false} TestsFit(c: Counter, a: seq<Entry>, time: int, n: nat)
    requires time <= c.resetAt && c.count + n <= MAX
    ensures TestedTimes(Log(Some(c), a), time, n) ==
      Log(Some(Counter(c.count + n, c.resetAt)), a + Same(Entry(time, c.resetAt - WINDOW), n))
  {
    var e := Entry(time, c.resetAt - WINDOW);
    if n == 0 {
      assert a + Same(e, 0) == a;
    } else {
      TestsFit(c, a, time, n - 1);
      assert a + Same(e, n) == a + Same(e, n - 1) + [e];
    }
  }

  lemma {:induction false} CountSame(a: seq<Entry>, e: Entry, n: nat, x: int)
    ensures CountWithin(a + Same(e, n), x) == CountWithin(a, x) + if x <= e.time <= x + WINDOW then n else 0
  {
    if n == 0 {
      assert a + Same(e, n) == a;
    } else {
      CountSame(a, e, n - 1, x);
      assert (a + Same(e, n))[..|a + Same(e, n)| - 1] == a + Same(e, n - 1);
    }
  }

  /** One test, 19 more at the end of its window, 20 right after: 39 within 60 000 ms. */
  function Worst(key: string): seq<Request> {
    [] + [Request(key, 0)] + Burst(key, WINDOW, MAX - 1) + [Request(key, WINDOW + 1)] + Burst(key, WINDOW + 1, MAX - 1)
  }

  lemma WorstLog(key: string)
    ensures LogOf(Worst(key), key).allowed ==
      [] + Same(Entry(0, 0), 1) + Same(Entry(WINDOW, 0), MAX - 1) + Same(Entry(WINDOW + 1, WINDOW + 1), 1) +
          Same(Entry(WINDOW + 1, WINDOW + 1), MAX - 1)
  {
    var a: seq<Entry> := [] + Same(Entry(0, 0), 1);
    assert Same(Entry(0, 0), 1) == [Entry(0, 0)];
    var two := FirstWindow(key, a);
    var b := a + Same(Entry(WINDOW, 0), MAX - 1);
    var next := Entry(WINDOW + 1, WINDOW + 1);
    OneMore(two, key, WINDOW + 1);
    assert Same(next, 1) == [next];
    BurstTests(two + [Request(key, WINDOW + 1)], key, WINDOW + 1, MAX - 1);
    TestsFit(Counter(1, 2 * WINDOW + 1), b + [next], WINDOW + 1, MAX - 1);
  }

  lemma FirstWindow(key: string, a: seq<Entry>) returns (h: seq<Request>)
    requires a == [Entry(0, 0)]
    ensures h == [] + [Request(key, 0)] + Burst(key, WINDOW, MAX - 1)
    ensures LogOf(h, key) == Log(Some(Counter(MAX, WINDOW)), a + Same(Entry(WINDOW, 0), MAX - 1))
  {
    var one: seq<Request> := [] + [Request(key, 0)];
    OneMore([], key, 0);
    assert LogOf(one, key) == Log(Some(Counter(1, WINDOW)), a);
    BurstTests(one, key, WINDOW, MAX - 1);
    TestsFit(Counter(1, WINDOW), a, WINDOW, MAX - 1);
    h := one + Burst(key, WINDOW, MAX - 1);
  }

  /** The bound is reached by a history with a running clock. */
  lemma BoundIsReached(key: string)
    ensures ClockRuns(Worst(key)) && CountWithin(LogOf(Worst(key), key).allowed, WINDOW) == 2 * MAX - 1
  {
    WorstIsInOrder(key);
    WorstLog(key);
    var early, late, next := Entry(0, 0), Entry(WINDOW, 0), Entry(WINDOW + 1, WINDOW + 1);
    var a: seq<Entry> := [] + Same(early, 1);
    CountSame([], early, 1, WINDOW);
    CountSame(a, late, MAX - 1, WINDOW);
    CountSame(a + Same(late, MAX - 1), next, 1, WINDOW);
    CountSame(a + Same(late, MAX - 1) + Same(next, 1), next, MAX - 1, WINDOW);
  }

  lemma {:induction false} BurstTimes(key: string, time: int, n: nat)
    ensures |Burst(key, time, n)| == n && forall i | 0 <= i < n :: Burst(key, time, n)[i].time == time
  {
    if n > 0 { BurstTimes(key, time, n - 1); }
  }

  lemma WorstIsInOrder(key: string)
    ensures ClockRuns(Worst(key))
  {
    BurstTimes(key, WINDOW, MAX - 1);
    BurstTimes(key, WINDOW + 1, MAX - 1);
  }
}
