/** Over a window of ticks the log becomes a partition, the reports a union of intervals, and either a percentage. */
module Availability {
  import opened Common
  import opened ProbeStore
  import opened ProbeInvariants
  import Sorting

  /** [start, end) */
  datatype Interval = Interval(start: int, end: int)

  datatype Segment = Segment(interval: Interval, status: string)

  predicate IsAvailableStatus(status: string) {
    status == "" || status == STATUS_OPERATIONAL || status == STATUS_DEGRADED
  }

  /** An entity of this status is out of service; one that is merely degraded is not. */
  ghost predicate IsDown(status: string) {
    status != "" && status != "ok" && status != "degraded"
  }

  // ---- Ticks

  /** The ticks of [lo, hi). */
  function Ticks(lo: int, hi: int): (r: set<int>)
    ensures forall t :: t in r <==> lo <= t < hi
    decreases hi - lo
  {
    if lo >= hi then {} else Ticks(lo, hi - 1) + {hi - 1}
  }

  lemma {:induction false} TicksCount(lo: int, hi: int)
    requires lo <= hi
    ensures |Ticks(lo, hi)| == hi - lo
    decreases hi - lo
  {
    if lo < hi {
      TicksCount(lo, hi - 1);
    }
  }

  // ---- Sorting events

  predicate StringLess(a: string, b: string) {
    if b == "" then false
    else if a == "" then true
    else if a[0] != b[0] then a[0] < b[0]
    else StringLess(a[1..], b[1..])
  }

  lemma {:induction false} StringLessIsAsymmetric(a: string, b: string)
    requires StringLess(a, b)
    ensures !StringLess(b, a)
  {
    if a != "" && a[0] == b[0] {
      StringLessIsAsymmetric(a[1..], b[1..]);
    }
  }

  lemma {:induction false} StringNotLessIsTransitive(x: string, y: string, z: string)
    requires !StringLess(y, x) && !StringLess(z, y)
    ensures !StringLess(z, x)
  {
    if x != "" && y != "" && z != "" && x[0] == y[0] == z[0] {
      StringNotLessIsTransitive(x[1..], y[1..], z[1..]);
    }
  }

  /** They share their first n characters, and then a ends or has the lesser character. */
  ghost predicate DiffersAt(a: string, b: string, n: nat) {
    n <= |a| && n < |b| && a[..n] == b[..n] && (n == |a| || a[n] < b[n])
  }

  lemma {:induction false} StringLessIsLexical(a: string, b: string)
    ensures StringLess(a, b) <==> exists n: nat :: DiffersAt(a, b, n)
  {
    if b == "" {
    } else if a == "" {
      assert DiffersAt(a, b, 0);
    } else if a[0] != b[0] {
      if a[0] < b[0] {
        assert DiffersAt(a, b, 0);
      }
      assert forall n: nat :: 0 < n && DiffersAt(a, b, n) ==> a[..n][0] == b[..n][0];
    } else {
      StringLessIsLexical(a[1..], b[1..]);
      assert a == [a[0]] + a[1..] && b == [b[0]] + b[1..];
      forall n: nat
        ensures DiffersAt(a[1..], b[1..], n) <==> DiffersAt(a, b, n + 1)
      {
        if n <= |a| - 1 && n < |b| - 1 {
          assert a[..n + 1] == [a[0]] + a[1..][..n] && b[..n + 1] == [b[0]] + b[1..][..n];
          assert a[1..][..n] == a[..n + 1][1..] && b[1..][..n] == b[..n + 1][1..];
        }
      }
      if n: nat :| DiffersAt(a, b, n) {
        assert DiffersAt(a[1..], b[1..], n - 1);
      }
    }
  }

  predicate EventBefore(a: ProbeEvent, b: ProbeEvent) {
    if a.changedAt == b.changedAt then StringLess(a.target.probeMethod, b.target.probeMethod)
    else a.changedAt < b.changedAt
  }

  lemma EventBeforeIsAnOrder()
    ensures Sorting.StrictWeakOrder(EventBefore)
  {
    forall x, y | EventBefore(x, y)
      ensures !EventBefore(y, x)
    {
      if x.changedAt == y.changedAt {
        StringLessIsAsymmetric(x.target.probeMethod, y.target.probeMethod);
      }
    }
    forall x, y, z | !EventBefore(y, x) && !EventBefore(z, y)
      ensures !EventBefore(z, x)
    {
      if x.changedAt == y.changedAt == z.changedAt {
        StringNotLessIsTransitive(x.target.probeMethod, y.target.probeMethod, z.target.probeMethod);
      }
    }
  }

  function UpTo(end: int): ProbeEvent -> bool {
    (e: ProbeEvent) => e.changedAt <= end
  }

  function SortedEvents(events: seq<ProbeEvent>, end: int): seq<ProbeEvent> {
    Sorting.StableSorted(EventBefore, Sorting.Selected(UpTo(end), events))
  }

  /** Events in time order, none of them after `end`. */
  ghost predicate IsTimeline(ev: seq<ProbeEvent>, end: int) {
    && (forall i, j :: 0 <= i <= j < |ev| ==> ev[i].changedAt <= ev[j].changedAt)
    && (forall i :: 0 <= i < |ev| ==> ev[i].changedAt <= end)
  }

  lemma SortedEventsAreATimeline(events: seq<ProbeEvent>, end: int)
    ensures IsTimeline(SortedEvents(events, end), end)
    ensures forall e :: e in SortedEvents(events, end) <==> e in events && e.changedAt <= end
  {
    var kept, ev := Sorting.Selected(UpTo(end), events), SortedEvents(events, end);
    EventBeforeIsAnOrder();
    Sorting.SortedIsOrdered(EventBefore, kept);
    Sorting.SelectedMembers(UpTo(end), events);
    Sorting.SortedHasSameElements(EventBefore, kept);
    forall i, j | 0 <= i <= j < |ev|
      ensures ev[i].changedAt <= ev[j].changedAt
    {
      assert i < j ==> !EventBefore(ev[j], ev[i]);
    }
    assert forall i :: 0 <= i < |ev| ==> ev[i] in ev;
  }

  /** Method a is lexically less than method b. */
  ghost predicate MethodBefore(a: ProbeEvent, b: ProbeEvent) {
    exists n: nat :: DiffersAt(a.target.probeMethod, b.target.probeMethod, n)
  }

  /** Row i is earlier than row j, or of its instant and of a lesser method, or of one no greater and comes first. */
  ghost predicate ComesBefore(events: seq<ProbeEvent>, i: nat, j: nat)
    requires i < |events| && j < |events|
  {
    var a, b := events[i], events[j];
    || a.changedAt < b.changedAt
    || (a.changedAt == b.changedAt && (MethodBefore(a, b) || (!MethodBefore(b, a) && i < j)))
  }

  /** The sorted events are the rows up to the end, at these places of the given list. */
  lemma SortedEventsAreInOrder(events: seq<ProbeEvent>, end: int) returns (places: seq<nat>)
    ensures Sorting.StandAt(SortedEvents(events, end), events, places)
    ensures forall i: nat :: i in places <==> i < |events| && events[i].changedAt <= end
    ensures forall m, n :: 0 <= m < n < |places| ==> ComesBefore(events, places[m], places[n])
  {
    EventBeforeIsAnOrder();
    places := Sorting.AnswerPlaces(EventBefore, UpTo(end), events);
    var ev := SortedEvents(events, end);
    forall m, n | 0 <= m < n < |places|
      ensures ComesBefore(events, places[m], places[n])
    {
      assert ev[m] == events[places[m]] && ev[n] == events[places[n]];
      StringLessIsLexical(ev[m].target.probeMethod, ev[n].target.probeMethod);
      StringLessIsLexical(ev[n].target.probeMethod, ev[m].target.probeMethod);
      assert EventBefore(ev[m], ev[n]) || (!EventBefore(ev[n], ev[m]) && places[m] < places[n]);
    }
  }

  method AvailabilitySortedEvents(events: seq<ProbeEvent>, end: int) returns (ret: seq<ProbeEvent>)
    ensures ret == SortedEvents(events, end)
  {
    ret := [];
    for i := 0 to |events|
      invariant ret == Sorting.Selected(UpTo(end), events[..i])
    {
      assert events[..i + 1] == events[..i] + [events[i]];
      Sorting.SelectedAppend(UpTo(end), events[..i], events[i]);
      if events[i].changedAt > end {
        continue;
      }
      ret := ret + [events[i]];
    }
    assert events[..|events|] == events;
    ret := Sorting.StableSorted(EventBefore, ret);
  }

  // ---- Segments

  function WithSegment(start: int, end: int, status: string, rest: seq<Segment>): seq<Segment> {
    if start < end then [Segment(Interval(start, end), status)] + rest else rest
  }

  /** The segments from `cursor` on, with `status` in force there and the events still to come. */
  function SegmentsFrom(ev: seq<ProbeEvent>, cursor: int, status: string, end: int): seq<Segment> {
    if ev == [] then WithSegment(cursor, end, status, [])
    else WithSegment(cursor, ev[0].changedAt, status, SegmentsFrom(ev[1..], ev[0].changedAt, ev[0].status, end))
  }

  function CountUpTo(ev: seq<ProbeEvent>, start: int): (n: nat)
    ensures n <= |ev|
    ensures forall i :: 0 <= i < n ==> ev[i].changedAt <= start
    ensures n < |ev| ==> ev[n].changedAt > start
  {
    if ev == [] || ev[0].changedAt > start then 0 else 1 + CountUpTo(ev[1..], start)
  }

  /** The segments and the missing part of [start, end), for a timeline. */
  function SegmentsAndMissing(ev: seq<ProbeEvent>, start: int, end: int): (seq<Segment>, seq<Interval>) {
    var n := CountUpTo(ev, start);
    if n > 0 then (SegmentsFrom(ev[n..], start, ev[n - 1].status, end), [])
    else if ev == [] then ([], [Interval(start, end)])
    else (SegmentsFrom(ev[1..], ev[0].changedAt, ev[0].status, end), [Interval(start, ev[0].changedAt)])
  }

  /** Non-empty intervals, each beginning where the one before ends, from `from` to `to`. */
  ghost predicate Tiles(segments: seq<Segment>, from: int, to: int) {
    if segments == [] then from == to
    else
      var s := segments[0].interval;
      s.start == from && s.start < s.end && Tiles(segments[1..], s.end, to)
  }

  ghost predicate HoldsTick(segments: seq<Segment>, i: int, t: int) {
    0 <= i < |segments| && segments[i].interval.start <= t < segments[i].interval.end
  }

  /** Every segment carries, at each of its ticks, the status of the last event at or before the tick. */
  ghost predicate FollowsLog(segments: seq<Segment>, ev: seq<ProbeEvent>) {
    forall i, t :: HoldsTick(segments, i, t) ==> Replay(ev, t) == Some(segments[i].status)
  }

  lemma {:induction false} TilesStayInside(segments: seq<Segment>, from: int, to: int)
    requires Tiles(segments, from, to)
    ensures from <= to
    ensures forall i :: 0 <= i < |segments| ==>
              from <= segments[i].interval.start < segments[i].interval.end <= to
  {
    if segments != [] {
      TilesStayInside(segments[1..], segments[0].interval.end, to);
    }
  }

  /** A tiling reaches every tick of its range, once. */
  lemma {:induction false} TilesPartition(segments: seq<Segment>, from: int, to: int, t: int)
    requires Tiles(segments, from, to) && from <= t < to
    ensures exists i :: HoldsTick(segments, i, t)
    ensures forall i, j :: HoldsTick(segments, i, t) && HoldsTick(segments, j, t) ==> i == j
  {
    var s, rest := segments[0].interval, segments[1..];
    TilesStayInside(rest, s.end, to);
    assert forall k :: 0 <= k < |rest| ==> rest[k] == segments[k + 1];
    if t < s.end {
      assert HoldsTick(segments, 0, t);
    } else {
      TilesPartition(rest, s.end, to, t);
      var i :| HoldsTick(rest, i, t);
      assert HoldsTick(segments, i + 1, t);
      assert forall k :: HoldsTick(segments, k, t) ==> HoldsTick(rest, k - 1, t);
    }
  }

  lemma {:induction false} ReplayFromFront(e: ProbeEvent, rest: seq<ProbeEvent>, t: int)
    ensures Replay([e] + rest, t)
         == if Replay(rest, t).Some? then Replay(rest, t) else if e.changedAt <= t then Some(e.status) else None
  {
    var ev := [e] + rest;
    if rest == [] {
      assert ev[..|ev| - 1] == [];
    } else {
      assert ev[..|ev| - 1] == [e] + rest[..|rest| - 1];
      ReplayFromFront(e, rest[..|rest| - 1], t);
    }
  }

  lemma {:induction false} ReplayBeforeAll(ev: seq<ProbeEvent>, t: int)
    requires forall i :: 0 <= i < |ev| ==> ev[i].changedAt > t
    ensures Replay(ev, t) == None
  {
    if ev != [] {
      ReplayBeforeAll(ev[..|ev| - 1], t);
    }
  }

  lemma {:induction false} SegmentsFromTile(ev: seq<ProbeEvent>, e: ProbeEvent, cursor: int, end: int)
    requires IsTimeline(ev, end) && e.changedAt <= cursor <= end
    requires forall i :: 0 <= i < |ev| ==> cursor <= ev[i].changedAt
    ensures Tiles(SegmentsFrom(ev, cursor, e.status, end), cursor, end)
    ensures FollowsLog(SegmentsFrom(ev, cursor, e.status, end), [e] + ev)
  {
    if ev == [] {
      assert Replay([e], cursor) == Some(e.status) by { assert [e][..0] == []; }
    } else {
      var next, rest := ev[0], ev[1..];
      assert ev == [next] + rest;
      assert forall i :: 0 <= i < |rest| ==> rest[i] == ev[i + 1];
      SegmentsFromTile(rest, next, next.changedAt, end);
      FirstStatusThenRest(ev, e, cursor, end);
    }
  }

  /** The segments of the later events follow the log; so do they with the stretch before them. */
  lemma FirstStatusThenRest(ev: seq<ProbeEvent>, e: ProbeEvent, cursor: int, end: int)
    requires ev != [] && e.changedAt <= cursor <= ev[0].changedAt
    requires forall i :: 0 <= i < |ev| ==> ev[0].changedAt <= ev[i].changedAt
    requires Tiles(SegmentsFrom(ev[1..], ev[0].changedAt, ev[0].status, end), ev[0].changedAt, end)
    requires FollowsLog(SegmentsFrom(ev[1..], ev[0].changedAt, ev[0].status, end), ev)
    ensures FollowsLog(SegmentsFrom(ev, cursor, e.status, end), [e] + ev)
  {
    var segments, next := SegmentsFrom(ev, cursor, e.status, end), ev[0];
    var tail := SegmentsFrom(ev[1..], next.changedAt, next.status, end);
    TilesStayInside(tail, next.changedAt, end);
    forall i, t | HoldsTick(segments, i, t)
      ensures Replay([e] + ev, t) == Some(segments[i].status)
    {
      ReplayFromFront(e, ev, t);
      if cursor < next.changedAt && i == 0 {
        ReplayBeforeAll(ev, t);
      } else {
        var j := if cursor < next.changedAt then i - 1 else i;
        assert tail[j] == segments[i] && HoldsTick(tail, j, t);
      }
    }
  }

  lemma {:induction false} ReplayIgnoresEarlier(before: seq<ProbeEvent>, ev: seq<ProbeEvent>, t: int)
    requires ev != [] && ev[0].changedAt <= t
    ensures Replay(before + ev, t) == Replay(ev, t)
  {
    if before == [] {
      assert before + ev == ev;
    } else {
      assert before + ev == [before[0]] + (before[1..] + ev);
      ReplayFromFront(before[0], before[1..] + ev, t);
      ReplayIgnoresEarlier(before[1..], ev, t);
      ReplayFromFront(ev[0], ev[1..], t);
      assert ev == [ev[0]] + ev[1..];
    }
  }

  /** Missing part and segments partition the window, and each tick has the status last logged by then. */
  ghost predicate PartitionsWindow(segments: seq<Segment>, missing: seq<Interval>, ev: seq<ProbeEvent>, start: int,
                                   end: int) {
    exists from ::
      && start <= from <= end
      && missing == (if start < from then [Interval(start, from)] else [])
      && Tiles(segments, from, end)
      && FollowsLog(segments, ev)
      && forall t :: start <= t < from ==> Replay(ev, t) == None
  }

  lemma PartitionWithoutMissing(ev: seq<ProbeEvent>, n: nat, start: int, end: int)
    requires start < end && IsTimeline(ev, end) && 0 < n <= |ev|
    requires ev[n - 1].changedAt <= start && (n < |ev| ==> start < ev[n].changedAt)
    ensures PartitionsWindow(SegmentsFrom(ev[n..], start, ev[n - 1].status, end), [], ev, start, end)
  {
    var before, e, rest := ev[..n - 1], ev[n - 1], ev[n..];
    var segments := SegmentsFrom(rest, start, e.status, end);
    assert ev == before + ([e] + rest);
    SegmentsFromTile(rest, e, start, end);
    TilesStayInside(segments, start, end);
    forall i, t | HoldsTick(segments, i, t)
      ensures Replay(ev, t) == Some(segments[i].status)
    {
      ReplayIgnoresEarlier(before, [e] + rest, t);
    }
  }

  lemma PartitionWithMissing(ev: seq<ProbeEvent>, start: int, end: int)
    requires start < end && IsTimeline(ev, end) && ev != [] && start < ev[0].changedAt
    ensures PartitionsWindow(SegmentsFrom(ev[1..], ev[0].changedAt, ev[0].status, end),
                             [Interval(start, ev[0].changedAt)], ev, start, end)
  {
    var e, rest := ev[0], ev[1..];
    assert ev == [e] + rest;
    SegmentsFromTile(rest, e, e.changedAt, end);
    forall t | start <= t < e.changedAt
      ensures Replay(ev, t) == None
    {
      ReplayBeforeAll(ev, t);
    }
  }

  lemma SegmentsPartitionWindow(ev: seq<ProbeEvent>, start: int, end: int)
    requires start < end && IsTimeline(ev, end)
    ensures var (segments, missing) := SegmentsAndMissing(ev, start, end);
            PartitionsWindow(segments, missing, ev, start, end)
  {
    var n := CountUpTo(ev, start);
    if n > 0 {
      PartitionWithoutMissing(ev, n, start, end);
    } else if ev == [] {
      assert Tiles([], end, end);
    } else {
      PartitionWithMissing(ev, start, end);
    }
  }

  function AppendSegment(segments: seq<Segment>, start: int, end: int, status: string): seq<Segment> {
    if start < end then segments + [Segment(Interval(start, end), status)] else segments
  }

  function AppendInterval(intervals: seq<Interval>, start: int, end: int): seq<Interval> {
    if start < end then intervals + [Interval(start, end)] else intervals
  }

  lemma AppendThenRest(segments: seq<Segment>, ev: seq<ProbeEvent>, i: nat, cursor: int, status: string, end: int)
    requires i <= |ev|
    ensures i < |ev| ==>
              segments + SegmentsFrom(ev[i..], cursor, status, end)
              == AppendSegment(segments, cursor, ev[i].changedAt, status)
                 + SegmentsFrom(ev[i + 1..], ev[i].changedAt, ev[i].status, end)
    ensures i == |ev| ==>
              segments + SegmentsFrom(ev[i..], cursor, status, end) == AppendSegment(segments, cursor, end, status)
  {
  }

  method ProbeAvailabilitySegments(events: seq<ProbeEvent>, start: int, end: int)
    returns (segments: seq<Segment>, missing: seq<Interval>)
    ensures start >= end ==> segments == [] && missing == []
    ensures start < end ==> (segments, missing) == SegmentsAndMissing(SortedEvents(events, end), start, end)
    ensures start < end ==> PartitionsWindow(segments, missing, SortedEvents(events, end), start, end)
  {
    segments, missing := [], [];
    if start >= end {
      return;
    }
    var ev := AvailabilitySortedEvents(events, end);
    SortedEventsAreATimeline(events, end);
    if |ev| == 0 {
      missing := [Interval(start, end)];
    } else {
      segments, missing := SegmentsOfTimeline(ev, start, end);
    }
    SegmentsPartitionWindow(ev, start, end);
  }

  /** The two loops over the sorted events. */
  method SegmentsOfTimeline(ev: seq<ProbeEvent>, start: int, end: int)
    returns (segments: seq<Segment>, missing: seq<Interval>)
    requires ev != [] && start < end && IsTimeline(ev, end)
    ensures (segments, missing) == SegmentsAndMissing(ev, start, end)
  {
    segments, missing := [], [];

    var cursor := start;
    var currentStatus := "";
    var eventIndex := 0;
    while eventIndex < |ev| && ev[eventIndex].changedAt <= start
      invariant 0 <= eventIndex <= CountUpTo(ev, start)
      invariant eventIndex > 0 ==> currentStatus == ev[eventIndex - 1].status
    {
      currentStatus := ev[eventIndex].status;
      eventIndex := eventIndex + 1;
    }
    if eventIndex == 0 {
      missing := AppendInterval(missing, start, Min(ev[0].changedAt, end));
      cursor := Min(ev[0].changedAt, end);
      currentStatus := ev[0].status;
      eventIndex := 1;
    }

    assert missing == SegmentsAndMissing(ev, start, end).1;
    assert SegmentsFrom(ev[eventIndex..], cursor, currentStatus, end) == SegmentsAndMissing(ev, start, end).0;
    segments := SegmentsOfRest(ev, eventIndex, cursor, currentStatus, start, end);
  }

  /** The loop over the events after the start of the window. */
  method SegmentsOfRest(ev: seq<ProbeEvent>, first: nat, cursor0: int, status0: string, start: int, end: int)
    returns (segments: seq<Segment>)
    requires first <= |ev| && IsTimeline(ev, end)
    requires forall i :: first <= i < |ev| ==> start <= ev[i].changedAt
    ensures segments == SegmentsFrom(ev[first..], cursor0, status0, end)
  {
    segments := [];
    var eventIndex, cursor, currentStatus := first, cursor0, status0;
    ghost var expected := SegmentsFrom(ev[first..], cursor0, status0, end);
    assert segments + expected == expected;
    while eventIndex < |ev|
      invariant first <= eventIndex <= |ev|
      invariant segments + SegmentsFrom(ev[eventIndex..], cursor, currentStatus, end) == expected
    {
      var event := ev[eventIndex];
      AppendThenRest(segments, ev, eventIndex, cursor, currentStatus, end);
      if event.changedAt < start || event.changedAt > end {
        assert false;
        eventIndex := eventIndex + 1;
        continue;
      }
      segments := AppendSegment(segments, cursor, event.changedAt, currentStatus);
      cursor := event.changedAt;
      currentStatus := event.status;
      eventIndex := eventIndex + 1;
    }
    AppendThenRest(segments, ev, eventIndex, cursor, currentStatus, end);
    segments := AppendSegment(segments, cursor, end, currentStatus);
  }
}
