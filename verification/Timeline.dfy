/**
 Paging through the timeline of an execution. `collate` stands for the collation that
 `localeCompare` uses: it gives the place of a string on the real line, where every order of
 the strings fits. Different strings may share a place, as canonically equivalent ones do.
 */
module Timeline {
  import opened Text

  datatype Event = Event(id: string, kind: string, timestamp: string, message: string)

  /** What a cursor carries. */
  datatype Cursor = Cursor(version: int, timestamp: string, kind: string, id: string)

  function Priority(kind: string): int {
    if kind == "event_trigger" then 0
    else if kind == "execution_created" then 10
    else if kind == "execution_started" then 20
    else if kind == "reused_step" then 25
    else if kind == "step_attempt" then 30
    else if kind == "wait" then 40
    else if kind == "approval_requested" then 50
    else if kind == "approval_decided" then 60
    else if kind == "subworkflow" then 70
    else if kind == "notification" then 80
    else if kind == "dead_letter" then 90
    else if kind == "execution_completed" then 100
    else 50
  }

  /** What the comparator reads of an event. */
  datatype Place = Place(time: real, priority: int, id: real)

  function PlaceOf(e: Event, collate: string -> real): Place {
    Place(collate(e.timestamp), Priority(e.kind), collate(e.id))
  }

  /** What `localeCompare` returns. */
  function Sign(x: real, y: real): int {
    if x < y then -1 else if x > y then 1 else 0
  }

  /** Negative, zero or positive, as the comparator returns. */
  function Compare(p: Place, q: Place): int {
    if p.time != q.time then Sign(p.time, q.time)
    else if p.priority != q.priority then p.priority - q.priority
    else Sign(p.id, q.id)
  }

  function Encode(e: Event): Cursor {
    Cursor(1, e.timestamp, e.kind, e.id)
  }

  /** A cursor of another version is refused. */
  function Decode(c: Cursor): Option<Event> {
    if c.version == 1 then Some(Event(c.id, c.kind, c.timestamp, "")) else None
  }

  /** The decoded cursor carries all that the comparator reads: the event without its message. */
  lemma CursorStandsForEvent(e: Event)
    ensures Decode(Encode(e)) == Some(e.(message := ""))
  {
  }

  // ----- the order

  /** Where each event belongs. */
  type Order = Event -> Place

  function TimelineOrder(collate: string -> real): Order {
    e => PlaceOf(e, collate)
  }

  /** The comparator does not read the message. */
  ghost predicate Blind(place: Order) {
    forall e: Event :: place(e.(message := "")) == place(e)
  }

  lemma OrderIsBlind(collate: string -> real)
    ensures Blind(TimelineOrder(collate))
  {
  }

  // ----- sorting

  /** Earlier timestamps first, then the order of the kinds, then the order of the ids. */
  lemma OrderExactly(a: Event, b: Event, collate: string -> real)
    ensures var place := TimelineOrder(collate);
      && (Before(a, b, place) <==>
            || collate(a.timestamp) < collate(b.timestamp)
            || (collate(a.timestamp) == collate(b.timestamp) &&
                  (|| Priority(a.kind) < Priority(b.kind)
                   || (Priority(a.kind) == Priority(b.kind) && collate(a.id) < collate(b.id)))))
      && (Tie(a, b, place) <==>
            collate(a.timestamp) == collate(b.timestamp) && Priority(a.kind) == Priority(b.kind) &&
            collate(a.id) == collate(b.id))
  {
  }

  const STAGES := ["event_trigger", "execution_created", "execution_started", "reused_step", "step_attempt", "wait",
                   "approval_requested", "approval_decided", "subworkflow", "notification", "dead_letter",
                   "execution_completed"]

  /** At one time, events come in the order of the stages of an execution; a kind without a stage is like a request. */
  lemma StagesInOrder(i: nat, j: nat, kind: string)
    requires i < j < |STAGES|
    ensures Priority(STAGES[i]) < Priority(STAGES[j])
    ensures kind !in STAGES ==> Priority(kind) == Priority("approval_requested")
  {
    StageAt(i);
    StageAt(j);
    StageAt(6);
    if kind !in STAGES { assert forall n | 0 <= n < |STAGES| :: kind != STAGES[n]; }
  }

  lemma StageAt(i: nat)
    requires i < |STAGES|
    ensures Priority(STAGES[i]) == [0, 10, 20, 25, 30, 40, 50, 60, 70, 80, 90, 100][i]
  {
  }

  predicate Before(a: Event, b: Event, place: Order) {
    Compare(place(a), place(b)) < 0
  }

  predicate Tie(a: Event, b: Event, place: Order) {
    Compare(place(a), place(b)) == 0
  }

  ghost predicate InOrder(events: seq<Event>, place: Order) {
    forall i, j | 0 <= i < j < |events| :: Before(events[i], events[j], place)
  }

  /** In order, with ties. */
  ghost predicate InTurn(events: seq<Event>, place: Order) {
    forall i, j | 0 <= i < j < |events| :: !Before(events[j], events[i], place)
  }

  /** No event is there twice, and no two events compare equal. */
  ghost predicate Untied(events: seq<Event>, place: Order) {
    && (forall e | e in events :: multiset(events)[e] == 1)
    && (forall e, f | e in events && f in events && e != f :: !Tie(e, f, place))
  }

  function Insert(e: Event, sorted: seq<Event>, place: Order): seq<Event> {
    if sorted == [] || Compare(place(e), place(sorted[0])) <= 0 then [e] + sorted
    else [sorted[0]] + Insert(e, sorted[1..], place)
  }

  /** The sorted events; events that compare equal keep their order. */
  function Sorted(events: seq<Event>, place: Order): seq<Event> {
    if events == [] then [] else Insert(events[0], Sorted(events[1..], place), place)
  }

  lemma {:induction false} InsertKeeps(e: Event, sorted: seq<Event>, place: Order)
    requires InTurn(sorted, place)
    ensures InTurn(Insert(e, sorted, place), place)
    ensures multiset(Insert(e, sorted, place)) == multiset(sorted) + multiset{e}
  {
    if sorted == [] {
    } else if Compare(place(e), place(sorted[0])) <= 0 {
      InFront(e, sorted, place);
    } else {
      assert sorted == [sorted[0]] + sorted[1..];
      InsertKeeps(e, sorted[1..], place);
      var rest := Insert(e, sorted[1..], place);
      forall k | 0 <= k < |rest|
        ensures !Before(rest[k], sorted[0], place)
      {
        assert rest[k] in multiset(rest);
        assert rest[k] == e || rest[k] in sorted[1..];
      }
      FirstThenRest(sorted[0], rest, place);
    }
  }

  lemma InFront(e: Event, sorted: seq<Event>, place: Order)
    requires sorted != [] && InTurn(sorted, place) && !Before(sorted[0], e, place)
    ensures InTurn([e] + sorted, place) && multiset([e] + sorted) == multiset(sorted) + multiset{e}
  {
    assert forall j | 0 < j < |sorted| :: !Before(sorted[j], sorted[0], place);
    FirstThenRest(e, sorted, place);
  }

  lemma FirstThenRest(e: Event, rest: seq<Event>, place: Order)
    requires InTurn(rest, place) && forall k | 0 <= k < |rest| :: !Before(rest[k], e, place)
    ensures InTurn([e] + rest, place)
  {
  }

  /** Sorting gives the same events in order. */
  lemma {:induction false} SortedIsOrdered(events: seq<Event>, place: Order)
    ensures InTurn(Sorted(events, place), place) && multiset(Sorted(events, place)) == multiset(events)
  {
    if events != [] {
      assert events == [events[0]] + events[1..];
      SortedIsOrdered(events[1..], place);
      InsertKeeps(events[0], Sorted(events[1..], place), place);
    }
  }

  /** The events that compare equal to one, in order. */
  function Ties(events: seq<Event>, e: Event, place: Order): seq<Event> {
    if events == [] then [] else (if Tie(events[0], e, place) then [events[0]] else []) + Ties(events[1..], e, place)
  }

  lemma {:induction false} InsertStable(f: Event, sorted: seq<Event>, e: Event, place: Order)
    requires InTurn(sorted, place)
    ensures Ties(Insert(f, sorted, place), e, place) == (if Tie(f, e, place) then [f] else []) + Ties(sorted, e, place)
  {
    if sorted == [] || Compare(place(f), place(sorted[0])) <= 0 {
      assert ([f] + sorted)[1..] == sorted;
    } else {
      var rest := Insert(f, sorted[1..], place);
      InsertStable(f, sorted[1..], e, place);
      assert ([sorted[0]] + rest)[1..] == rest;
    }
  }

  /** In the sorted timeline no event comes before one with an earlier timestamp. */
  lemma SortedByTime(events: seq<Event>, collate: string -> real, i: nat, j: nat)
    requires i < j < |events|
    ensures |Sorted(events, TimelineOrder(collate))| == |events|
    ensures var s := Sorted(events, TimelineOrder(collate)); collate(s[i].timestamp) <= collate(s[j].timestamp)
  {
    var place := TimelineOrder(collate);
    var s := Sorted(events, place);
    SortedIsOrdered(events, place);
    assert |multiset(s)| == |s| && |multiset(events)| == |events|;
    assert !Before(s[j], s[i], place);
    OrderExactly(s[j], s[i], collate);
  }

  /** Sorting is stable. */
  lemma {:induction false} SortedIsStable(events: seq<Event>, e: Event, place: Order)
    ensures Ties(Sorted(events, place), e, place) == Ties(events, e, place)
  {
    if events != [] {
      SortedIsStable(events[1..], e, place);
      SortedIsOrdered(events[1..], place);
      InsertStable(events[0], Sorted(events[1..], place), e, place);
    }
  }

  // ----- ties

  lemma TwiceIsTwo(s: seq<Event>, i: int, j: int)
    requires 0 <= i < j < |s| && s[i] == s[j]
    ensures multiset(s)[s[i]] >= 2
  {
    assert s == s[..j] + s[j..];
    assert s[i] in s[..j] && s[j] in s[j..];
  }

  /** Sorted events without ties are in strict order. */
  lemma UntiedInOrder(s: seq<Event>, place: Order)
    requires InTurn(s, place) && Untied(s, place)
    ensures InOrder(s, place)
  {
    forall i, j | 0 <= i < j < |s|
      ensures Before(s[i], s[j], place)
    {
      assert s[i] in s && s[j] in s;
      if s[i] == s[j] { TwiceIsTwo(s, i, j); }
      assert !Tie(s[i], s[j], place) && !Before(s[j], s[i], place);
    }
  }

  lemma {:induction false} OnceInOrder(s: seq<Event>, place: Order, e: Event)
    requires InOrder(s, place) && e in s
    ensures multiset(s)[e] == 1
  {
    assert s == [s[0]] + s[1..];
    if e == s[0] {
      assert forall i | 0 <= i < |s[1..]| :: s[1..][i] == s[i + 1] && Before(s[0], s[i + 1], place);
      assert e !in s[1..];
    } else {
      OnceInOrder(s[1..], place, e);
    }
  }

  /** Strict order has no ties. */
  lemma InOrderUntied(s: seq<Event>, place: Order)
    requires InOrder(s, place)
    ensures Untied(s, place)
  {
    forall e | e in s { OnceInOrder(s, place, e); }
    forall e, f | e in s && f in s && e != f
      ensures !Tie(e, f, place)
    {
      var i :| 0 <= i < |s| && s[i] == e;
      var j :| 0 <= j < |s| && s[j] == f;
      assert if i < j then Before(s[i], s[j], place) else Before(s[j], s[i], place);
    }
  }

  lemma UntiedSame(a: seq<Event>, b: seq<Event>, place: Order)
    requires multiset(a) == multiset(b)
    ensures Untied(a, place) <==> Untied(b, place)
  {
    assert forall e :: e in a <==> e in multiset(a);
    assert forall e :: e in b <==> e in multiset(b);
  }

  // ----- one page

  datatype Page = Page(items: seq<Event>, nextCursor: Option<Cursor>)

  function After(sorted: seq<Event>, cursor: Event, place: Order): seq<Event> {
    if sorted == [] then []
    else (if Compare(place(sorted[0]), place(cursor)) > 0 then [sorted[0]] else []) + After(sorted[1..], cursor, place)
  }

  function Visible(events: seq<Event>, cursor: Option<Cursor>, place: Order): Option<seq<Event>> {
    if cursor.None? then Some(Sorted(events, place))
    else if Decode(cursor.value).None? then None
    else Some(After(Sorted(events, place), Decode(cursor.value).value, place))
  }

  function Cut(visible: seq<Event>, limit: nat): Page
    requires 1 <= limit
  {
    if |visible| > limit then Page(visible[..limit], Some(Encode(visible[limit - 1]))) else Page(visible, None)
  }

  /** `None` when the cursor is refused. */
  function TimelinePage(events: seq<Event>, cursor: Option<Cursor>, limit: nat, place: Order): Option<Page>
    requires 1 <= limit
  {
    match Visible(events, cursor, place)
    case None => None
    case Some(visible) => Some(Cut(visible, limit))
  }

  /** Exactly the cursors of another version are refused. */
  lemma RefusedExactly(events: seq<Event>, cursor: Option<Cursor>, limit: nat, place: Order)
    requires 1 <= limit
    ensures TimelinePage(events, cursor, limit, place).None? <==> cursor.Some? && cursor.value.version != 1
  {
  }

  lemma {:induction false} AfterSameCursor(sorted: seq<Event>, e: Event, place: Order)
    requires Blind(place)
    ensures After(sorted, Decode(Encode(e)).value, place) == After(sorted, e, place)
  {
    if sorted != [] { AfterSameCursor(sorted[1..], e, place); }
  }

  /** What is not beyond the cursor can be dropped first. */
  lemma {:induction false} AfterDrop(sorted: seq<Event>, k: nat, cursor: Event, place: Order)
    requires k <= |sorted| && forall j | 0 <= j < k :: !Before(cursor, sorted[j], place)
    ensures After(sorted, cursor, place) == After(sorted[k..], cursor, place)
  {
    if k == 0 {
      assert sorted[0..] == sorted;
    } else {
      assert Compare(place(sorted[0]), place(cursor)) <= 0;
      AfterDrop(sorted[1..], k - 1, cursor, place);
      assert sorted[1..][k - 1..] == sorted[k..];
    }
  }

  lemma {:induction false} AfterAll(sorted: seq<Event>, cursor: Event, place: Order)
    requires forall k | 0 <= k < |sorted| :: Before(cursor, sorted[k], place)
    ensures After(sorted, cursor, place) == sorted
  {
    if sorted != [] { AfterAll(sorted[1..], cursor, place); }
  }

  lemma {:induction false} AfterLength(sorted: seq<Event>, cursor: Event, place: Order)
    ensures |After(sorted, cursor, place)| <= |sorted|
  {
    if sorted != [] { AfterLength(sorted[1..], cursor, place); }
  }

  /** In a sorted list without a tie behind `i`, what comes after the element at `i` is the rest of the list. */
  lemma AfterIsSuffix(sorted: seq<Event>, i: nat, place: Order)
    requires InTurn(sorted, place) && i < |sorted| && (i + 1 < |sorted| ==> Before(sorted[i], sorted[i + 1], place))
    ensures After(sorted, sorted[i], place) == sorted[i + 1..]
  {
    NotBeyond(sorted, i, place);
    AfterDrop(sorted, i + 1, sorted[i], place);
    RestIsBeyond(sorted, i, sorted[i + 1..], place);
    AfterAll(sorted[i + 1..], sorted[i], place);
  }

  lemma NotBeyond(sorted: seq<Event>, i: nat, place: Order)
    requires InTurn(sorted, place) && i < |sorted|
    ensures forall j | 0 <= j <= i :: !Before(sorted[i], sorted[j], place)
  {
  }

  lemma RestIsBeyond(sorted: seq<Event>, i: nat, rest: seq<Event>, place: Order)
    requires InTurn(sorted, place) && i < |sorted| && (i + 1 < |sorted| ==> Before(sorted[i], sorted[i + 1], place)) &&
      rest == sorted[i + 1..]
    ensures forall k | 0 <= k < |rest| :: Before(sorted[i], rest[k], place)
  {
    forall k | 0 <= k < |rest|
      ensures Before(sorted[i], rest[k], place)
    {
      LaterIsBeyond(sorted, i, i + 1 + k, place);
    }
  }

  lemma LaterIsBeyond(sorted: seq<Event>, i: nat, j: nat, place: Order)
    requires InTurn(sorted, place) && i < j < |sorted| && Before(sorted[i], sorted[i + 1], place)
    ensures Before(sorted[i], sorted[j], place)
  {
    assert j > i + 1 ==> !Before(sorted[j], sorted[i + 1], place);
  }

  /** A tie behind `i` is dropped. */
  lemma AfterTie(sorted: seq<Event>, i: nat, place: Order)
    requires InTurn(sorted, place) && i + 1 < |sorted| && !Before(sorted[i], sorted[i + 1], place)
    ensures |After(sorted, sorted[i], place)| < |sorted| - (i + 1)
  {
    assert forall j | 0 <= j < i :: !Before(sorted[i], sorted[j], place);
    AfterDrop(sorted, i + 2, sorted[i], place);
    AfterLength(sorted[i + 2..], sorted[i], place);
  }

  lemma AfterShrinks(sorted: seq<Event>, i: nat, place: Order)
    requires i < |sorted|
    ensures |After(sorted, sorted[i], place)| < |sorted|
  {
    AfterCount(sorted, i, sorted[i], place);
  }

  lemma {:induction false} AfterCount(sorted: seq<Event>, i: nat, cursor: Event, place: Order)
    requires i < |sorted| && !Before(cursor, sorted[i], place)
    ensures |After(sorted, cursor, place)| < |sorted|
  {
    if i == 0 {
      AfterLength(sorted[1..], cursor, place);
    } else {
      AfterCount(sorted[1..], i - 1, cursor, place);
    }
  }

  /** The events beyond a later cursor are beyond it among those beyond an earlier one. */
  lemma {:induction false} AfterAfter(sorted: seq<Event>, c: Event, d: Event, place: Order)
    requires Before(c, d, place)
    ensures After(After(sorted, c, place), d, place) == After(sorted, d, place)
  {
    if sorted != [] {
      AfterAfter(sorted[1..], c, d, place);
      var rest := After(sorted[1..], c, place);
      assert ([sorted[0]] + rest)[1..] == rest && [] + rest == rest;
    }
  }

  lemma {:induction false} AfterMembers(sorted: seq<Event>, cursor: Event, place: Order, e: Event)
    ensures e in After(sorted, cursor, place) <==> e in sorted && Compare(place(e), place(cursor)) > 0
  {
    if sorted != [] { AfterMembers(sorted[1..], cursor, place, e); }
  }

  lemma {:induction false} AfterInTurn(sorted: seq<Event>, cursor: Event, place: Order)
    requires InTurn(sorted, place)
    ensures InTurn(After(sorted, cursor, place), place)
  {
    if sorted != [] {
      AfterInTurn(sorted[1..], cursor, place);
      var rest := After(sorted[1..], cursor, place);
      forall k | 0 <= k < |rest|
        ensures !Before(rest[k], sorted[0], place)
      {
        AfterMembers(sorted[1..], cursor, place, rest[k]);
        var j :| 0 <= j < |sorted[1..]| && sorted[1..][j] == rest[k];
        assert !Before(sorted[j + 1], sorted[0], place);
      }
      FirstThenRest(sorted[0], rest, place);
    }
  }

  // ----- following the cursors

  /** What the pages show, one after the other, when all these events are visible. */
  function Pages(visible: seq<Event>, limit: nat, place: Order): seq<Event>
    requires 1 <= limit
    decreases |visible|
  {
    if |visible| <= limit then visible
    else
      AfterShrinks(visible, limit - 1, place);
      visible[..limit] + Pages(After(visible, visible[limit - 1], place), limit, place)
  }

  /** What is visible from a cursor, or from the start. */
  function Seen(sorted: seq<Event>, from: Option<Event>, place: Order): seq<Event> {
    if from.None? then sorted else After(sorted, from.value, place)
  }

  /** The next page starts behind the last event of this one. */
  lemma NextSeen(sorted: seq<Event>, from: Option<Event>, last: Event, place: Order)
    requires last in Seen(sorted, from, place)
    ensures After(Seen(sorted, from, place), last, place) == Seen(sorted, Some(last), place)
  {
    if from.Some? {
      AfterMembers(sorted, from.value, place, last);
      AfterAfter(sorted, from.value, last, place);
    }
  }

  lemma PageSeen(events: seq<Event>, last: Event, limit: nat, place: Order)
    requires 1 <= limit && Blind(place)
    ensures TimelinePage(events, Some(Encode(last)), limit, place) ==
      Some(Cut(Seen(Sorted(events, place), Some(last), place), limit))
  {
    AfterSameCursor(Sorted(events, place), last, place);
  }

  /** The page behind this one, and what both leave. */
  lemma NextPage(events: seq<Event>, from: Option<Event>, limit: nat, place: Order)
    requires 1 <= limit && Blind(place) && |Seen(Sorted(events, place), from, place)| > limit
    ensures var sorted, visible := Sorted(events, place), Seen(Sorted(events, place), from, place);
      var last, page := visible[limit - 1], Cut(visible, limit);
      && |Seen(sorted, Some(last), place)| < |visible|
      && Pages(visible, limit, place) == page.items + Pages(Seen(sorted, Some(last), place), limit, place)
      && TimelinePage(events, page.nextCursor, limit, place) == Some(Cut(Seen(sorted, Some(last), place), limit))
  {
    var visible := Seen(Sorted(events, place), from, place);
    AfterShrinks(visible, limit - 1, place);
    NextSeen(Sorted(events, place), from, visible[limit - 1], place);
    PageSeen(events, visible[limit - 1], limit, place);
  }

  /** Following `nextCursor` from the start ends, and gives the sorted timeline when no two events compare equal. */
  method FollowCursors(events: seq<Event>, limit: nat, place: Order) returns (all: seq<Event>)
    requires 1 <= limit && Blind(place)
    ensures all == Pages(Sorted(events, place), limit, place)
    ensures Untied(events, place) ==> InOrder(all, place) && multiset(all) == multiset(events)
  {
    ghost var sorted := Sorted(events, place);
    ghost var from: Option<Event>, done: seq<Event> := None, [];
    var page := TimelinePage(events, None, limit, place).value;
    all := page.items;
    assert [] + Pages(sorted, limit, place) == Pages(sorted, limit, place) && [] + all == all;
    while page.nextCursor.Some?
      invariant page == Cut(Seen(sorted, from, place), limit) && all == done + page.items
      invariant Pages(sorted, limit, place) == done + Pages(Seen(sorted, from, place), limit, place)
      decreases |Seen(sorted, from, place)|
    {
      ghost var last := Seen(sorted, from, place)[limit - 1];
      NextPage(events, from, limit, place);
      JoinThree(done, page.items, Pages(Seen(sorted, Some(last), place), limit, place));
      done, from := all, Some(last);
      page := TimelinePage(events, page.nextCursor, limit, place).value;
      all := all + page.items;
    }
    if Untied(events, place) { UntiedIsShown(events, limit, place); }
  }

  // ----- exactly when every event is shown

  /** No page ends between two events that compare equal. */
  ghost predicate CleanCuts(s: seq<Event>, limit: nat, place: Order)
    requires 1 <= limit
    decreases |s|
  {
    |s| > limit ==> Before(s[limit - 1], s[limit], place) && CleanCuts(s[limit..], limit, place)
  }

  lemma FewAfter(s: seq<Event>, limit: nat, place: Order)
    requires 1 <= limit <= |s| && InTurn(s, place)
    ensures |After(s, s[limit - 1], place)| <= |s| - limit
  {
    assert forall j | 0 <= j < limit - 1 :: !Before(s[limit - 1], s[j], place);
    AfterDrop(s, limit, s[limit - 1], place);
    AfterLength(s[limit..], s[limit - 1], place);
  }

  /** The events of a page and of those behind it: all of them, or fewer. */
  lemma PageAndRest(s: seq<Event>, limit: nat, next: seq<Event>, rest: seq<Event>)
    requires limit < |s|
    ensures next == s[limit..] && rest == next ==> s[..limit] + rest == s
    ensures |next| <= |s| - limit && |rest| < |next| ==> |s[..limit] + rest| < |s|
    ensures |next| < |s| - limit && |rest| <= |next| ==> |s[..limit] + rest| < |s|
  {
  }

  /** The pages show every visible event exactly when no page ends between two that compare equal. */
  lemma {:induction false} PagesComplete(s: seq<Event>, limit: nat, place: Order)
    requires 1 <= limit && InTurn(s, place)
    ensures if CleanCuts(s, limit, place) then Pages(s, limit, place) == s else |Pages(s, limit, place)| < |s|
    decreases |s|
  {
    if |s| > limit {
      var next := After(s, s[limit - 1], place);
      AfterShrinks(s, limit - 1, place);
      AfterInTurn(s, s[limit - 1], place);
      FewAfter(s, limit, place);
      PagesComplete(next, limit, place);
      PageAndRest(s, limit, next, Pages(next, limit, place));
      if Before(s[limit - 1], s[limit], place) {
        AfterIsSuffix(s, limit - 1, place);
      } else {
        AfterTie(s, limit - 1, place);
      }
    }
  }

  /** Following the cursors shows every event. */
  ghost predicate ShowsAll(events: seq<Event>, limit: nat, place: Order)
    requires 1 <= limit
  {
    multiset(Pages(Sorted(events, place), limit, place)) == multiset(events)
  }

  /** For one limit: every event is shown exactly when no page ends between two that compare equal. */
  lemma ShownExactly(events: seq<Event>, limit: nat, place: Order)
    requires 1 <= limit
    ensures ShowsAll(events, limit, place) <==> CleanCuts(Sorted(events, place), limit, place)
  {
    var sorted := Sorted(events, place);
    SortedIsOrdered(events, place);
    PagesComplete(sorted, limit, place);
    assert |multiset(sorted)| == |sorted| && |multiset(Pages(sorted, limit, place))| == |Pages(sorted, limit, place)|;
  }

  lemma {:induction false} StrictCuts(s: seq<Event>, limit: nat, place: Order)
    requires 1 <= limit && InOrder(s, place)
    ensures CleanCuts(s, limit, place)
    decreases |s|
  {
    if |s| > limit {
      var rest := s[limit..];
      assert forall i | 0 <= i < |rest| :: rest[i] == s[limit + i];
      StrictCuts(s[limit..], limit, place);
    }
  }

  lemma {:induction false} SingleCuts(s: seq<Event>, place: Order)
    requires CleanCuts(s, 1, place)
    ensures InOrder(s, place)
  {
    if |s| > 1 {
      SingleCuts(s[1..], place);
      forall i, j | 0 <= i < j < |s|
        ensures Before(s[i], s[j], place)
      {
        if i > 0 {
          assert Before(s[1..][i - 1], s[1..][j - 1], place);
        } else if j > 1 {
          assert Before(s[1..][0], s[1..][j - 1], place);
        }
      }
    }
  }

  lemma UntiedIsShown(events: seq<Event>, limit: nat, place: Order)
    requires 1 <= limit && Untied(events, place)
    ensures var all := Pages(Sorted(events, place), limit, place);
      all == Sorted(events, place) && InOrder(all, place) && multiset(all) == multiset(events)
  {
    var sorted := Sorted(events, place);
    SortedIsOrdered(events, place);
    UntiedSame(events, sorted, place);
    UntiedInOrder(sorted, place);
    StrictCuts(sorted, limit, place);
    PagesComplete(sorted, limit, place);
  }

  /** For every limit: every event is shown exactly when no two compare equal. */
  lemma AlwaysShownExactly(events: seq<Event>, place: Order)
    ensures Untied(events, place) <==> forall limit: nat | 1 <= limit :: ShowsAll(events, limit, place)
  {
    if Untied(events, place) {
      forall limit: nat | 1 <= limit
        ensures ShowsAll(events, limit, place)
      {
        UntiedIsShown(events, limit, place);
      }
    }
    if ShowsAll(events, 1, place) {
      var sorted := Sorted(events, place);
      ShownExactly(events, 1, place);
      SingleCuts(sorted, place);
      InOrderUntied(sorted, place);
      SortedIsOrdered(events, place);
      UntiedSame(events, sorted, place);
    }
  }

  /** Two events that compare equal, one to a page: the second is never shown. */
  lemma TieIsLost(a: Event, b: Event, place: Order)
    requires Tie(a, b, place)
    ensures Pages(Sorted([a, b], place), 1, place) == [a]
  {
    assert [a, b][1..] == [b] && [b][1..] == [] && Sorted([b], place) == [b];
    assert Sorted([a, b], place) == [a, b];
    assert After([a, b], a, place) == [] by { assert After([b], a, place) == []; }
    assert Pages([], 1, place) == [];
  }

  // ----- the timeline may change between two pages

  ghost predicate PageAt(snapshots: seq<seq<Event>>, pages: seq<Page>, limit: nat, place: Order, i: int)
    requires 1 <= limit && 0 <= i < |pages| == |snapshots|
  {
    if i == 0 then TimelinePage(snapshots[0], None, limit, place) == Some(pages[0])
    else
      && pages[i - 1].nextCursor.Some?
      && TimelinePage(snapshots[i], pages[i - 1].nextCursor, limit, place) == Some(pages[i])
  }

  /** Pages taken from possibly different snapshots, each with the cursor the page before it returned. */
  ghost predicate Followed(snapshots: seq<seq<Event>>, pages: seq<Page>, limit: nat, place: Order)
    requires 1 <= limit
  {
    && |pages| == |snapshots|
    && forall i {:trigger PageAt(snapshots, pages, limit, place, i)} ::
         0 <= i < |pages| ==> PageAt(snapshots, pages, limit, place, i)
  }

  function Items(pages: seq<Page>): seq<Event> {
    if pages == [] then [] else Items(pages[..|pages| - 1]) + pages[|pages| - 1].items
  }

  /** `e` lies beyond the cursor, if there is one. */
  ghost predicate Beyond(e: Event, cursor: Option<Event>, place: Order) {
    cursor.Some? ==> Compare(place(e), place(cursor.value)) > 0
  }

  function CursorFor(e: Option<Event>): Option<Cursor> {
    if e.Some? then Some(Encode(e.value)) else None
  }

  lemma {:induction false} AfterInOrder(sorted: seq<Event>, cursor: Event, place: Order)
    requires InOrder(sorted, place)
    ensures InOrder(After(sorted, cursor, place), place)
  {
    if sorted != [] {
      AfterInOrder(sorted[1..], cursor, place);
      var rest := After(sorted[1..], cursor, place);
      forall k | 0 <= k < |rest|
        ensures Before(sorted[0], rest[k], place)
      {
        AfterMembers(sorted[1..], cursor, place, rest[k]);
        var j :| 0 <= j < |sorted[1..]| && sorted[1..][j] == rest[k];
        assert Before(sorted[0], sorted[j + 1], place);
      }
    }
  }

  lemma SortedStrictly(events: seq<Event>, place: Order)
    requires Untied(events, place)
    ensures InOrder(Sorted(events, place), place) && forall e :: e in Sorted(events, place) <==> e in events
  {
    var sorted := Sorted(events, place);
    SortedIsOrdered(events, place);
    UntiedSame(events, sorted, place);
    UntiedInOrder(sorted, place);
    forall e
      ensures e in sorted <==> e in events
    {
      assert e in multiset(sorted) <==> e in multiset(events);
    }
  }

  lemma VisibleContents(events: seq<Event>, cursor: Option<Event>, place: Order) returns (visible: seq<Event>)
    requires Blind(place) && Untied(events, place)
    ensures Visible(events, CursorFor(cursor), place) == Some(visible)
    ensures InOrder(visible, place) && forall e :: e in visible <==> e in events && Beyond(e, cursor, place)
  {
    var sorted := Sorted(events, place);
    SortedStrictly(events, place);
    visible := Visible(events, CursorFor(cursor), place).value;
    if cursor.Some? {
      AfterSameCursor(sorted, cursor.value, place);
      AfterInOrder(sorted, cursor.value, place);
      forall e { AfterMembers(sorted, cursor.value, place, e); }
    }
  }

  /** An event that a cut leaves out lies beyond its next cursor. */
  lemma CutLeaves(visible: seq<Event>, limit: nat, place: Order, e: Event)
    requires 1 <= limit && InOrder(visible, place) && e in visible && e !in Cut(visible, limit).items
    ensures |visible| > limit && Before(visible[limit - 1], e, place)
  {
    var items := Cut(visible, limit).items;
    assert forall j | 0 <= j < |items| :: visible[j] == items[j] && items[j] in items;
    var i :| 0 <= i < |visible| && visible[i] == e;
  }

  lemma CutContents(visible: seq<Event>, limit: nat, place: Order)
    requires 1 <= limit && InOrder(visible, place)
    ensures var page := Cut(visible, limit);
      && InOrder(page.items, place)
      && (forall e | e in page.items :: e in visible)
      && (page.nextCursor.Some? ==> page.items != [] && page.nextCursor == Some(Encode(page.items[|page.items| - 1])))
  {
    var items := Cut(visible, limit).items;
    assert forall k | 0 <= k < |items| :: items[k] == visible[k];
  }

  /** What has been shown so far: in order, ending at the next cursor, and nothing permanent left behind. */
  ghost predicate ShownSoFar(shown: seq<Event>, cursor: Option<Cursor>, permanent: set<Event>, place: Order) {
    && InOrder(shown, place)
    && (cursor.Some? ==> shown != [] && cursor == Some(Encode(shown[|shown| - 1])))
    && (forall e | e in permanent && e !in shown :: cursor.Some? && Compare(place(e), place(shown[|shown| - 1])) > 0)
  }

  /** The permanent events that a page leaves out lie beyond its next cursor. */
  lemma NothingLeftBehind(shown: seq<Event>, cursor: Option<Event>, visible: seq<Event>, permanent: set<Event>,
      limit: nat, place: Order)
    requires 1 <= limit && InOrder(visible, place)
    requires forall e | e in permanent && Beyond(e, cursor, place) :: e in visible
    requires cursor.Some? ==> forall e | e in permanent && e !in shown :: Beyond(e, cursor, place)
    ensures var page := Cut(visible, limit);
      forall e | e in permanent && e !in shown && e !in page.items ::
        page.nextCursor.Some? && page.items != [] && Compare(place(e), place(page.items[|page.items| - 1])) > 0
  {
    var page := Cut(visible, limit);
    forall e | e in permanent && e !in shown && e !in page.items
      ensures page.nextCursor.Some? && page.items != [] && Compare(place(e), place(page.items[|page.items| - 1])) > 0
    {
      CutLeaves(visible, limit, place, e);
    }
  }

  /** One more page, from a snapshot that still holds the permanent events. */
  lemma ShowPage(shown: seq<Event>, cursor: Option<Event>, events: seq<Event>, permanent: set<Event>, limit: nat,
      place: Order, page: Page)
    requires 1 <= limit && Blind(place) && Untied(events, place) && forall e | e in permanent :: e in events
    requires cursor.None? ==> shown == []
    requires cursor.Some? ==>
      shown != [] && shown[|shown| - 1] == cursor.value && ShownSoFar(shown, CursorFor(cursor), permanent, place)
    requires TimelinePage(events, CursorFor(cursor), limit, place) == Some(page)
    ensures ShownSoFar(shown + page.items, page.nextCursor, permanent, place)
  {
    var visible := VisibleContents(events, cursor, place);
    CutContents(visible, limit, place);
    NothingLeftBehind(shown, cursor, visible, permanent, limit, place);
    if cursor.Some? { JoinInOrder(shown, page.items, place); }
    JoinPages(shown, page, permanent, place);
  }

  lemma JoinPages(shown: seq<Event>, page: Page, permanent: set<Event>, place: Order)
    requires shown == [] || InOrder(shown + page.items, place)
    requires InOrder(page.items, place)
    requires page.nextCursor.Some? ==> page.items != [] && page.nextCursor == Some(Encode(page.items[|page.items| - 1]))
    requires forall e | e in permanent && e !in shown && e !in page.items ::
      page.nextCursor.Some? && page.items != [] && Compare(place(e), place(page.items[|page.items| - 1])) > 0
    ensures ShownSoFar(shown + page.items, page.nextCursor, permanent, place)
  {
    var all := shown + page.items;
    assert shown == [] ==> all == page.items;
    assert page.items != [] ==> all[|all| - 1] == page.items[|page.items| - 1];
  }

  /**
   However the timeline changes between pages, as long as no snapshot has ties, no event is shown twice, the
   shown events are in order, and every event that stays in all snapshots is shown once there is no next cursor.
   */
  lemma {:induction false} ChangingTimeline(snapshots: seq<seq<Event>>, pages: seq<Page>, permanent: set<Event>,
      limit: nat, place: Order)
    requires 1 <= limit && Blind(place) && pages != [] && Followed(snapshots, pages, limit, place)
    requires forall i | 0 <= i < |snapshots| :: Untied(snapshots[i], place)
    requires forall e, i | 0 <= i < |snapshots| && e in permanent :: e in snapshots[i]
    ensures ShownSoFar(Items(pages), pages[|pages| - 1].nextCursor, permanent, place)
  {
    var n := |pages|;
    assert PageAt(snapshots, pages, limit, place, n - 1);
    if n == 1 {
      ShowPage([], None, snapshots[0], permanent, limit, place, pages[0]);
      assert Items(pages[..0]) == [];
    } else {
      FollowedPrefix(snapshots, pages, limit, place);
      ChangingTimeline(snapshots[..n - 1], pages[..n - 1], permanent, limit, place);
      var shown := Items(pages[..n - 1]);
      assert pages[..n - 1][n - 2] == pages[n - 2];
      ShowPage(shown, Some(shown[|shown| - 1]), snapshots[n - 1], permanent, limit, place, pages[n - 1]);
    }
  }

  lemma FollowedPrefix(snapshots: seq<seq<Event>>, pages: seq<Page>, limit: nat, place: Order)
    requires 1 <= limit && 1 < |pages| && Followed(snapshots, pages, limit, place)
    ensures Followed(snapshots[..|pages| - 1], pages[..|pages| - 1], limit, place)
  {
    var n := |pages| - 1;
    forall i | 0 <= i < n
      ensures PageAt(snapshots[..n], pages[..n], limit, place, i)
    {
      assert PageAt(snapshots, pages, limit, place, i);
    }
  }

  lemma JoinInOrder(a: seq<Event>, b: seq<Event>, place: Order)
    requires InOrder(a, place) && InOrder(b, place) && a != []
    requires forall e | e in b :: Compare(place(e), place(a[|a| - 1])) > 0
    ensures InOrder(a + b, place)
  {
    var c := a + b;
    forall i, j | 0 <= i < j < |c|
      ensures Before(c[i], c[j], place)
    {
      if i < |a| <= j {
        assert c[j] in b;
        assert i == |a| - 1 || Before(a[i], a[|a| - 1], place);
      }
    }
  }
}
