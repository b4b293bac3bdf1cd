/** Downtime as a count of ticks, from the probe log and from outage reports, and its percentage. */
module AvailabilityMetrics {
  import opened Common
  import opened Outages
  import opened ProbeStore
  import opened ProbeInvariants
  import opened Availability
  import Sorting

  // ---- The percentage

  /** Round half away from zero to three decimals; only used on non-negative percentages. */
  function RoundPercent(percent: real): real
    requires percent >= 0.0
  {
    (percent * 1000.0 + 0.5).Floor as real / 1000.0
  }

  function PercentOf(available: int, total: int): real
    requires total > 0
  {
    available as real / total as real * 100.0
  }

  /** None stands for a metric that is not available. */
  function MetricFromUnavailable(total: int, unavailable: int): Option<real>
    requires total > 0
  {
    var available := total - unavailable;
    var available := if available < 0 then 0 else available;
    var available := if available > total then total else available;
    RatioIsInRange(available, total);
    Some(RoundPercent(PercentOf(available, total)))
  }

  lemma RatioIsInRange(available: int, total: int)
    requires total > 0 && 0 <= available <= total
    ensures 0.0 <= PercentOf(available, total) <= 100.0
  {
  }

  /**
    m is the share of the time not unavailable as a percentage, rounded to three decimals, and up if it lies halfway
    between two of them.
  */
  ghost predicate IsPercentage(m: real, total: int, unavailable: int) {
    && 0.0 <= m <= 100.0
    && m * 1000.0 == (m * 1000.0).Floor as real
    && -0.0005 * total as real < m * total as real - 100.0 * (total - unavailable) as real <= 0.0005 * total as real
  }

  lemma PercentTimesTotal(available: int, total: int)
    requires total > 0
    ensures PercentOf(available, total) * total as real == 100.0 * available as real
  {
    assert available as real / total as real * total as real == available as real;
  }

  lemma Distribute(a: real, b: real, t: real)
    ensures (a + b) * t == a * t + b * t
  {
  }

  lemma ScaledBound(a: real, b: real, t: real)
    requires t > 0.0 && a <= b
    ensures a * t <= b * t && (a < b ==> a * t < b * t)
  {
    Distribute(a, b - a, t);
    assert (b - a) * t >= 0.0;
    assert a < b ==> (b - a) * t > 0.0;
    assert a + (b - a) == b;
  }

  /** A percentage off by at most half a thousandth, in terms of the times themselves. */
  lemma Scaled(m: real, p: real, t: real, exact: real)
    requires t > 0.0 && -0.0005 < m - p <= 0.0005 && p * t == exact
    ensures -0.0005 * t < m * t - exact <= 0.0005 * t
  {
    ScaledBound(p - 0.0005, m, t);
    ScaledBound(m, p + 0.0005, t);
    Distribute(p, -0.0005, t);
    Distribute(p, 0.0005, t);
  }

  /** With the unavailable time inside the window neither clamp acts. */
  lemma MetricIsRoundedRatio(total: int, unavailable: int)
    requires total > 0 && 0 <= unavailable <= total
    ensures var m := MetricFromUnavailable(total, unavailable); m.Some? && IsPercentage(m.value, total, unavailable)
  {
    var p, m := PercentOf(total - unavailable, total), MetricFromUnavailable(total, unavailable).value;
    RatioIsInRange(total - unavailable, total);
    var f := (p * 1000.0 + 0.5).Floor;
    assert p * 1000.0 - 0.5 < f as real <= p * 1000.0 + 0.5;
    assert 0 <= f <= 100000;
    assert m * 1000.0 == f as real;
    PercentTimesTotal(total - unavailable, total);
    Scaled(m, p, total as real, 100.0 * (total - unavailable) as real);
  }

  /** No downtime shows as 100 percent, and nothing but downtime as 0. */
  lemma MetricOfNoneAndAll(total: int)
    requires total > 0
    ensures MetricFromUnavailable(total, 0) == Some(100.0) && MetricFromUnavailable(total, total) == Some(0.0)
  {
    assert total as real / total as real == 1.0;
    assert 0.0 / total as real == 0.0;
    assert PercentOf(total, total) == 100.0 && PercentOf(0, total) == 0.0;
    assert (100.0 * 1000.0 + 0.5).Floor == 100000 && (0.0 * 1000.0 + 0.5).Floor == 0;
  }

  lemma DifferenceOfQuotients(a: real, b: real, t: real)
    requires t > 0.0
    ensures a / t - b / t == (a - b) / t
  {
    assert a == a / t * t && b == b / t * t;
    assert (a / t - b / t) * t == a - b;
  }

  /** More downtime never shows as a higher percentage. */
  lemma MetricIsMonotone(total: int, less: int, more: int)
    requires total > 0 && 0 <= less <= more <= total
    ensures MetricFromUnavailable(total, more).value <= MetricFromUnavailable(total, less).value
  {
    var p, q := PercentOf(total - more, total), PercentOf(total - less, total);
    RatioIsInRange(more - less, total);
    DifferenceOfQuotients((total - less) as real, (total - more) as real, total as real);
    assert q - p == PercentOf(more - less, total);
    assert (p * 1000.0 + 0.5).Floor <= (q * 1000.0 + 0.5).Floor;
  }

  // ---- Probe downtime

  /** The ticks of the window at which the last logged status counts as unavailable. */
  ghost function DownTicks(ev: seq<ProbeEvent>, start: int, end: int): set<int> {
    set t | t in Ticks(start, end) && Replay(ev, t).Some? && IsDown(Replay(ev, t).value)
  }

  function Downtime(segments: seq<Segment>): int {
    if segments == [] then 0
    else
      var s := segments[0];
      (if IsAvailableStatus(s.status) then 0 else s.interval.end - s.interval.start) + Downtime(segments[1..])
  }

  /** A window's down ticks are those of its two halves. */
  lemma DownTicksOfHalves(ev: seq<ProbeEvent>, from: int, mid: int, to: int)
    requires from <= mid <= to
    ensures |DownTicks(ev, from, to)| == |DownTicks(ev, from, mid)| + |DownTicks(ev, mid, to)|
  {
    assert DownTicks(ev, from, to) == DownTicks(ev, from, mid) + DownTicks(ev, mid, to);
    assert DownTicks(ev, from, mid) !! DownTicks(ev, mid, to);
  }

  /** Within one status either all ticks are down or none is. */
  lemma DownTicksOfOneStatus(ev: seq<ProbeEvent>, from: int, to: int, status: string)
    requires from <= to && forall t :: from <= t < to ==> Replay(ev, t) == Some(status)
    ensures |DownTicks(ev, from, to)| == if IsAvailableStatus(status) then 0 else to - from
  {
    TicksCount(from, to);
    assert DownTicks(ev, from, to) == if IsAvailableStatus(status) then {} else Ticks(from, to);
  }

  lemma {:induction false} DowntimeCountsTicks(segments: seq<Segment>, ev: seq<ProbeEvent>, from: int, to: int)
    requires Tiles(segments, from, to) && FollowsLog(segments, ev)
    ensures Downtime(segments) == |DownTicks(ev, from, to)|
  {
    if segments == [] {
      assert DownTicks(ev, from, to) == {};
    } else {
      var s, rest := segments[0], segments[1..];
      TilesStayInside(rest, s.interval.end, to);
      DowntimeCountsTicks(rest, ev, s.interval.end, to);
      DownTicksOfOneStatus(ev, from, s.interval.end, s.status);
      DownTicksOfHalves(ev, from, s.interval.end, to);
    }
  }

  lemma DownTicksAreBounded(ev: seq<ProbeEvent>, start: int, end: int)
    requires start <= end
    ensures |DownTicks(ev, start, end)| <= end - start
  {
    TicksCount(start, end);
    SubsetSize(DownTicks(ev, start, end), Ticks(start, end));
  }

  lemma SubsetSize(a: set<int>, b: set<int>)
    requires a <= b
    ensures |a| <= |b|
  {
    assert b == a + (b - a);
  }

  lemma MissingIffUnknownAtStart(segments: seq<Segment>, missing: seq<Interval>, ev: seq<ProbeEvent>, start: int,
                                 end: int)
    requires start < end && PartitionsWindow(segments, missing, ev, start, end)
    ensures missing != [] <==> Replay(ev, start) == None
    ensures missing == [] ==> Tiles(segments, start, end) && FollowsLog(segments, ev)
  {
  }

  /** No metric for an empty window or one that begins before the log; else the share of ticks not down. */
  ghost function ProbeMetric(start: int, end: int, events: seq<ProbeEvent>): Option<real> {
    var ev := SortedEvents(events, end);
    if start >= end || Replay(ev, start).None? then None
    else MetricFromUnavailable(end - start, |DownTicks(ev, start, end)|)
  }

  lemma ProbeMetricIsPercentage(start: int, end: int, events: seq<ProbeEvent>)
    ensures var metric, ev := ProbeMetric(start, end, events), SortedEvents(events, end);
            && (metric.Some? <==> start < end && Replay(ev, start).Some?)
            && (metric.Some? ==> IsPercentage(metric.value, end - start, |DownTicks(ev, start, end)|))
  {
    if start < end {
      var ev := SortedEvents(events, end);
      DownTicksAreBounded(ev, start, end);
      MetricIsRoundedRatio(end - start, |DownTicks(ev, start, end)|);
    }
  }

  method CalculateProbeAvailability(start: int, end: int, events: seq<ProbeEvent>) returns (metric: Option<real>)
    ensures metric == ProbeMetric(start, end, events)
    ensures metric.Some? <==> start < end && Replay(SortedEvents(events, end), start).Some?
    ensures metric.Some? ==>
              IsPercentage(metric.value, end - start, |DownTicks(SortedEvents(events, end), start, end)|)
  {
    var total := end - start;
    if total <= 0 {
      return None;
    }
    ghost var ev := SortedEvents(events, end);
    var segments, missing := ProbeAvailabilitySegments(events, start, end);
    MissingIffUnknownAtStart(segments, missing, ev, start, end);
    if |missing| > 0 {
      return None;
    }
    DowntimeCountsTicks(segments, ev, start, end);
    DownTicksAreBounded(ev, start, end);

    var unavailable := UnavailableTime(segments);
    MetricIsRoundedRatio(total, unavailable);
    metric := MetricFromUnavailable(total, unavailable);
  }

  method UnavailableTime(segments: seq<Segment>) returns (unavailable: int)
    ensures unavailable == Downtime(segments)
  {
    unavailable := 0;
    for i := 0 to |segments|
      invariant unavailable + Downtime(segments[i..]) == Downtime(segments)
    {
      var segment := segments[i];
      assert segments[i..][1..] == segments[i + 1..];
      if !IsAvailableStatus(segment.status) {
        unavailable := unavailable + (segment.interval.end - segment.interval.start);
      }
    }
  }

  // ---- Length of a union of intervals

  /** The ticks that lie in at least one of the intervals. */
  function Covered(intervals: seq<Interval>): set<int> {
    if intervals == [] then {}
    else Ticks(intervals[0].start, intervals[0].end) + Covered(intervals[1..])
  }

  ghost predicate InSome(intervals: seq<Interval>, t: int) {
    exists iv :: iv in intervals && iv.start <= t < iv.end
  }

  lemma {:induction false} CoveredMembers(intervals: seq<Interval>)
    ensures forall t :: t in Covered(intervals) <==> InSome(intervals, t)
  {
    if intervals == [] {
    } else {
      CoveredMembers(intervals[1..]);
      assert intervals == [intervals[0]] + intervals[1..];
      assert forall t :: InSome(intervals, t) <==>
               intervals[0].start <= t < intervals[0].end || InSome(intervals[1..], t);
    }
  }

  /** The covered ticks depend on the set of intervals alone, and grow with it. */
  lemma CoverageIsMonotoneInTheSet(a: seq<Interval>, b: seq<Interval>)
    requires forall iv :: iv in a ==> iv in b
    ensures Covered(a) <= Covered(b) && |Covered(a)| <= |Covered(b)|
    ensures (forall iv :: iv in b ==> iv in a) ==> Covered(a) == Covered(b)
  {
    CoveredMembers(a);
    CoveredMembers(b);
    assert forall t :: InSome(a, t) ==> InSome(b, t);
    SubsetSize(Covered(a), Covered(b));
    if forall iv :: iv in b ==> iv in a {
      assert forall t :: InSome(b, t) ==> InSome(a, t);
    }
  }

  predicate IntervalBefore(a: Interval, b: Interval) {
    if a.start == b.start then a.end < b.end else a.start < b.start
  }

  lemma CoveredOfOneMore(intervals: seq<Interval>, iv: Interval)
    ensures Covered(intervals + [iv]) == Covered(intervals) + Ticks(iv.start, iv.end)
  {
    CoveredMembers(intervals);
    CoveredMembers(intervals + [iv]);
    assert forall t :: InSome(intervals + [iv], t) <==> InSome(intervals, t) || iv.start <= t < iv.end;
  }

  /** The sweep has read `read`: finished blocks `before`, all of them ahead of the block `current`. */
  ghost predicate SweepState(read: seq<Interval>, before: set<int>, current: Interval) {
    && current.start <= current.end
    && (forall t :: t in before ==> t < current.start)
    && Covered(read) == before + Ticks(current.start, current.end)
  }

  lemma SweepSize(read: seq<Interval>, before: set<int>, current: Interval)
    requires SweepState(read, before, current)
    ensures |Covered(read)| == |before| + (current.end - current.start)
  {
    TicksCount(current.start, current.end);
    assert before !! Ticks(current.start, current.end);
  }

  lemma SweepStep(read: seq<Interval>, before: set<int>, current: Interval, iv: Interval)
    requires SweepState(read, before, current) && current.start <= iv.start <= iv.end
    ensures iv.start > current.end ==> SweepState(read + [iv], Covered(read), iv)
    ensures iv.start <= current.end ==>
              SweepState(read + [iv], before, Interval(current.start, Max(current.end, iv.end)))
  {
    CoveredOfOneMore(read, iv);
    if iv.start <= current.end {
      assert Ticks(current.start, Max(current.end, iv.end))
          == Ticks(current.start, current.end) + Ticks(iv.start, iv.end);
    }
  }

  lemma SortedByStart(intervals: seq<Interval>)
    requires forall iv :: iv in intervals ==> iv.start <= iv.end
    ensures var sorted := Sorting.StableSorted(IntervalBefore, intervals);
            && |sorted| == |intervals|
            && Covered(sorted) == Covered(intervals)
            && (forall i :: 0 <= i < |sorted| ==> sorted[i].start <= sorted[i].end)
            && (forall i :: 0 < i < |sorted| ==> sorted[i - 1].start <= sorted[i].start)
  {
    var sorted := Sorting.StableSorted(IntervalBefore, intervals);
    Sorting.SortedIsOrdered(IntervalBefore, intervals);
    Sorting.SortedHasSameElements(IntervalBefore, intervals);
    CoverageIsMonotoneInTheSet(sorted, intervals);
    forall i | 0 <= i < |sorted|
      ensures sorted[i].start <= sorted[i].end
      ensures i > 0 ==> sorted[i - 1].start <= sorted[i].start
    {
      assert sorted[i] in sorted;
      assert i > 0 ==> !IntervalBefore(sorted[i], sorted[i - 1]);
    }
  }

  method MergedIntervalDuration(intervals: seq<Interval>) returns (total: int)
    requires forall iv :: iv in intervals ==> iv.start <= iv.end
    ensures total == |Covered(intervals)|
  {
    if |intervals| == 0 {
      return 0;
    }
    SortedByStart(intervals);
    total := SweepDuration(Sorting.StableSorted(IntervalBefore, intervals));
  }

  /** The loop over the sorted intervals. */
  method SweepDuration(sorted: seq<Interval>) returns (total: int)
    requires sorted != []
    requires forall i :: 0 <= i < |sorted| ==> sorted[i].start <= sorted[i].end
    requires forall i :: 0 < i < |sorted| ==> sorted[i - 1].start <= sorted[i].start
    ensures total == |Covered(sorted)|
  {
    total := 0;
    var current := sorted[0];
    ghost var before: set<int> := {};
    assert sorted[..1] == [current];
    CoveredOfOneMore([], current);
    for i := 1 to |sorted|
      invariant SweepState(sorted[..i], before, current)
      invariant current.start <= sorted[i - 1].start
      invariant total == |before|
    {
      var interval := sorted[i];
      assert sorted[..i + 1] == sorted[..i] + [interval];
      SweepSize(sorted[..i], before, current);
      SweepStep(sorted[..i], before, current, interval);
      if interval.start > current.end {
        total := total + (current.end - current.start);
        before := Covered(sorted[..i]);
        current := interval;
        continue;
      }
      if interval.end > current.end {
        current := current.(end := interval.end);
      }
    }
    assert sorted[..|sorted|] == sorted;
    SweepSize(sorted, before, current);
    total := total + (current.end - current.start);
  }

  // ---- Reported downtime

  /** Where a report's downtime ends: an announced report without a usable end runs on to `now`. */
  function EffectiveEnd(report: OutageReport, now: int): Option<int> {
    var end := OutageEndsAt(report);
    if end == 0 || end <= report.beginsAt then
      if report.state == STATE_ANNOUNCED && report.beginsAt < now then Some(now) else None
    else Some(end)
  }

  /** The entity is down from the report's beginning to its end, or to `now` if it is announced and ends nowhere. */
  ghost predicate ReportsDown(report: OutageReport, key: HistoryKey, keysOf: KeysOf, now: int, t: int) {
    && report.beginsAt != 0
    && key in keysOf(report)
    && report.beginsAt <= t
    && (if LastInstant(report) > report.beginsAt then t < LastInstant(report)
        else report.state == "announced" && t < now)
  }

  lemma ReportsDownByEnd(report: OutageReport, key: HistoryKey, keysOf: KeysOf, now: int, t: int)
    ensures ReportsDown(report, key, keysOf, now, t) <==>
              && report.beginsAt != 0 && key in keysOf(report)
              && EffectiveEnd(report, now).Some? && report.beginsAt <= t < EffectiveEnd(report, now).value
  {
  }

  /** The ticks of the given intervals at which at least one report says the entity is down. */
  ghost function ReportedTicks(reports: seq<OutageReport>, key: HistoryKey, keysOf: KeysOf, intervals: seq<Interval>,
                               now: int): set<int> {
    set t | t in Covered(intervals) && exists r :: r in reports && ReportsDown(r, key, keysOf, now, t)
  }

  lemma ClipOneMore(done: seq<Interval>, clipped: seq<Interval>, read: seq<Interval>, iv: Interval,
                    from: int, to: int)
    requires Covered(clipped) == Covered(done) + (Covered(read) * Ticks(from, to))
    ensures Covered(AppendInterval(clipped, Max(from, iv.start), Min(to, iv.end)))
         == Covered(done) + (Covered(read + [iv]) * Ticks(from, to))
  {
    var start, end := Max(from, iv.start), Min(to, iv.end);
    CoveredOfOneMore(read, iv);
    CoveredOfOneMore(clipped, Interval(start, end));
    assert Ticks(start, end) == Ticks(iv.start, iv.end) * Ticks(from, to);
  }

  method OutageUnavailableDuration(key: HistoryKey, reports: seq<OutageReport>, keysOf: KeysOf,
                                   intervals: seq<Interval>, now: int) returns (duration: int)
    ensures duration == |ReportedTicks(reports, key, keysOf, intervals, now)|
  {
    if |reports| == 0 || |intervals| == 0 {
      assert ReportedTicks(reports, key, keysOf, intervals, now) == {};
      return 0;
    }
    var unavailable: seq<Interval> := [];
    for i := 0 to |reports|
      invariant forall iv :: iv in unavailable ==> iv.start < iv.end
      invariant Covered(unavailable) == ReportedTicks(reports[..i], key, keysOf, intervals, now)
    {
      var report := reports[i];
      ghost var done := unavailable;
      assert reports[..i + 1] == reports[..i] + [report];
      if report.beginsAt == 0 || key !in keysOf(report) {
        continue;
      }
      var reportStart := report.beginsAt;
      var reportEnd: int := OutageEndsAt(report);
      NothingReported(reports[..i], report, key, keysOf, intervals, now);
      if reportEnd == 0 || reportEnd <= reportStart {
        if report.state == STATE_ANNOUNCED && reportStart < now {
          reportEnd := now;
        } else {
          continue;
        }
      }
      for j := 0 to |intervals|
        invariant forall iv :: iv in unavailable ==> iv.start < iv.end
        invariant Covered(unavailable) == Covered(done) + (Covered(intervals[..j]) * Ticks(reportStart, reportEnd))
      {
        var interval := intervals[j];
        var start := Max(reportStart, interval.start);
        var end := Min(reportEnd, interval.end);
        assert intervals[..j + 1] == intervals[..j] + [interval];
        ClipOneMore(done, unavailable, intervals[..j], interval, reportStart, reportEnd);
        unavailable := AppendInterval(unavailable, start, end);
      }
      assert intervals[..|intervals|] == intervals;
      SomethingReported(reports[..i], report, key, keysOf, intervals, now);
    }
    assert reports[..|reports|] == reports;
    duration := MergedIntervalDuration(unavailable);
  }

  lemma SomethingReported(reports: seq<OutageReport>, report: OutageReport, key: HistoryKey, keysOf: KeysOf,
                          intervals: seq<Interval>, now: int)
    requires report.beginsAt != 0 && key in keysOf(report) && EffectiveEnd(report, now).Some?
    ensures ReportedTicks(reports + [report], key, keysOf, intervals, now)
         == ReportedTicks(reports, key, keysOf, intervals, now)
            + (Covered(intervals) * Ticks(report.beginsAt, EffectiveEnd(report, now).value))
  {
    assert forall r :: r in reports + [report] <==> r in reports || r == report;
    forall t
      ensures ReportsDown(report, key, keysOf, now, t) <==>
                t in Ticks(report.beginsAt, EffectiveEnd(report, now).value)
    {
      ReportsDownByEnd(report, key, keysOf, now, t);
    }
  }

  lemma NothingReported(reports: seq<OutageReport>, report: OutageReport, key: HistoryKey, keysOf: KeysOf,
                        intervals: seq<Interval>, now: int)
    ensures EffectiveEnd(report, now).None? ==>
              ReportedTicks(reports + [report], key, keysOf, intervals, now)
              == ReportedTicks(reports, key, keysOf, intervals, now)
  {
    assert forall r :: r in reports + [report] <==> r in reports || r == report;
    if EffectiveEnd(report, now).None? {
      assert forall t :: !ReportsDown(report, key, keysOf, now, t);
    }
  }

  method CalculateReportedAvailability(key: HistoryKey, start: int, end: int, reports: seq<OutageReport>,
                                       keysOf: KeysOf, reportsAvailable: bool) returns (metric: Option<real>)
    ensures metric.Some? <==>
              start < end && reportsAvailable && (key.kind == ENTITY_NODE || key.kind == ENTITY_VPSADMIN)
    ensures metric.Some? ==>
              var down := ReportedTicks(reports, key, keysOf, [Interval(start, end)], end);
              && down <= Ticks(start, end)
              && 0 <= |down| <= end - start
              && metric == MetricFromUnavailable(end - start, |down|)
              && IsPercentage(metric.value, end - start, |down|)
  {
    var total := end - start;
    if total <= 0 || !reportsAvailable || !(key.kind == ENTITY_NODE || key.kind == ENTITY_VPSADMIN) {
      return None;
    }
    var window := [Interval(start, end)];
    var unavailable := OutageUnavailableDuration(key, reports, keysOf, window, end);
    CoveredMembers(window);
    TicksCount(start, end);
    SubsetSize(ReportedTicks(reports, key, keysOf, window, end), Ticks(start, end));
    MetricIsRoundedRatio(total, unavailable);
    metric := MetricFromUnavailable(total, unavailable);
  }
}
