/** Which probe failures an outage report accounts for, as the bars and as the probe log ask it; the answers agree. */
module Coverage {
  import opened Common
  import opened Outages
  import opened ProbeStore
  import opened ProbeRuns
  import opened ProbeLog
  import opened ProbeQueries
  import opened Availability
  import Sorting

  function EntityKey(target: ProbeTarget): HistoryKey {
    HistoryKey(target.kind, target.id)
  }

  /** What the report speaks for, widened by half an hour on both sides. */
  ghost function Widened(report: OutageReport): (int, int) {
    (report.beginsAt - 1800, LastInstant(report) + 1800)
  }

  /** Some instant of [start, end] is one that the widened report speaks for. */
  ghost predicate SharesInstant(report: OutageReport, start: int, end: int) {
    var (from, to) := Widened(report);
    exists t: int :: Within(t, start, end) && Within(t, from, to)
  }

  /** The report affects the entity and accounts for a failure from start to end. */
  ghost predicate Covers(report: OutageReport, key: HistoryKey, start: int, end: int, keysOf: KeysOf) {
    report.beginsAt != 0 && key in keysOf(report) && SharesInstant(report, start, end)
  }

  lemma SharesInstantByOverlap(report: OutageReport, start: int, end: int)
    requires start <= end
    ensures var (reportStart, reportEnd) := OutageReportInterval(report);
            SharesInstant(report, start, end) <==>
              IntervalsOverlap(start, end, reportStart - REPORTED_INCIDENT_GRACE, reportEnd + REPORTED_INCIDENT_GRACE)
  {
    OverlapIsACommonInstant(start, end, report.beginsAt - REPORTED_INCIDENT_GRACE,
                            LastInstant(report) + REPORTED_INCIDENT_GRACE);
  }

  /** The end, or `now` for want of one, but not before the start. */
  function EndOr(end: Option<Instant>, now: Instant, start: Instant): (e: Instant)
    ensures var given := if end.Some? then end.value else now; e >= start && e >= given && (e == start || e == given)
  {
    var e := if end.Some? then end.value else now;
    if e < start then start else e
  }

  // ---- Incidents: is some report responsible?

  ghost predicate IncidentIsCovered(incident: ProbeIncident, reports: seq<OutageReport>, keysOf: KeysOf, now: Instant) {
    && incident.target.kind != "" && incident.target.id != "" && incident.startsAt != 0
    && exists r :: r in reports && Covers(r, HistoryKey(incident.target.kind, incident.target.id), incident.startsAt,
                                          EndOr(incident.endsAt, now, incident.startsAt), keysOf)
  }

  method CoveredByReport(incident: ProbeIncident, reports: seq<OutageReport>, keysOf: KeysOf, now: Instant)
    returns (covered: bool)
    ensures covered <==> IncidentIsCovered(incident, reports, keysOf, now)
  {
    if incident.target.kind == "" || incident.target.id == "" || incident.startsAt == 0 {
      return false;
    }
    var key := HistoryKey(incident.target.kind, incident.target.id);
    var probeStart, probeEnd := incident.startsAt, EndOr(incident.endsAt, now, incident.startsAt);
    for i := 0 to |reports|
      invariant forall j :: 0 <= j < i ==> !Covers(reports[j], key, probeStart, probeEnd, keysOf)
    {
      var report := reports[i];
      if report.beginsAt == 0 || key !in keysOf(report) {
        continue;
      }
      var (reportStart, reportEnd) := OutageReportInterval(report);
      SharesInstantByOverlap(report, probeStart, probeEnd);
      if IntervalsOverlap(probeStart, probeEnd, reportStart - REPORTED_INCIDENT_GRACE,
                          reportEnd + REPORTED_INCIDENT_GRACE) {
        assert report in reports && Covers(report, key, probeStart, probeEnd, keysOf);
        return true;
      }
    }
    return false;
  }

  ghost function IsVisible(reports: seq<OutageReport>, keysOf: KeysOf, now: Instant): ProbeIncident -> bool {
    (incident: ProbeIncident) => !IncidentIsCovered(incident, reports, keysOf, now)
  }

  /** The incidents that stay visible: those that no report covers, in their order. */
  method VisibleProbeIncidents(incidents: seq<ProbeIncident>, reports: seq<OutageReport>, keysOf: KeysOf, now: Instant)
    returns (ret: seq<ProbeIncident>)
    ensures ret == Sorting.Selected(IsVisible(reports, keysOf, now), incidents)
  {
    if |incidents| == 0 || |reports| == 0 {
      Sorting.SelectedAll(IsVisible(reports, keysOf, now), incidents);
      return incidents;
    }
    ret := [];
    for i := 0 to |incidents|
      invariant ret == Sorting.Selected(IsVisible(reports, keysOf, now), incidents[..i])
    {
      assert incidents[..i + 1] == incidents[..i] + [incidents[i]];
      Sorting.SelectedAppend(IsVisible(reports, keysOf, now), incidents[..i], incidents[i]);
      var covered := CoveredByReport(incidents[i], reports, keysOf, now);
      if covered {
        continue;
      }
      ret := ret + [incidents[i]];
    }
    assert incidents[..|incidents|] == incidents;
  }

  // ---- Log rows: which report is responsible?

  /** Where the row ends, or `now` if its run goes on, but not before it begins. */
  ghost function LogEventEnd(event: ProbeLogEvent, now: Instant): Instant {
    Max(if event.endsAt == 0 then now else event.endsAt, event.event.changedAt)
  }

  ghost predicate EventCoveredBy(event: ProbeLogEvent, report: OutageReport, keysOf: KeysOf, now: Instant) {
    && IsBad(event.event.status) && event.event.changedAt != 0
    && Covers(report, HistoryKey(event.event.target.kind, event.event.target.id), event.event.changedAt,
              LogEventEnd(event, now), keysOf)
  }

  /** How many seconds two stretches have in common. */
  ghost function CommonSeconds(a: int, b: int, c: int, d: int): nat {
    |Ticks(a, b) * Ticks(c, d)|
  }

  /** How many seconds the failure and the widened report have in common. */
  ghost function SharedSeconds(report: OutageReport, start: int, end: int): nat {
    var (from, to) := Widened(report);
    CommonSeconds(start, end, from, to)
  }

  /** How long the widened report and the failure run together. */
  function Overlap(report: OutageReport, start: int, end: int): int {
    var (reportStart, reportEnd) := OutageReportInterval(report);
    Min(end, reportEnd + REPORTED_INCIDENT_GRACE) - Max(start, reportStart - REPORTED_INCIDENT_GRACE)
  }

  lemma CommonTicksCount(a: int, b: int, c: int, d: int)
    requires Max(a, c) <= Min(b, d)
    ensures CommonSeconds(a, b, c, d) == Min(b, d) - Max(a, c)
  {
    var from, to := Max(a, c), Min(b, d);
    assert Ticks(a, b) * Ticks(c, d) == Ticks(from, to);
    TicksCount(from, to);
  }

  lemma SharedStretch(report: OutageReport, start: int, end: int, from: int, to: int)
    requires SharesInstant(report, start, end) && Widened(report) == (from, to)
    ensures Max(start, from) <= Min(end, to)
    ensures Overlap(report, start, end) == Min(end, to) - Max(start, from)
  {
  }

  lemma OverlapCountsSharedSeconds(report: OutageReport, start: int, end: int)
    requires SharesInstant(report, start, end)
    ensures Overlap(report, start, end) == SharedSeconds(report, start, end)
  {
    var (from, to) := Widened(report);
    SharedStretch(report, start, end, from, to);
    CommonTicksCount(start, end, from, to);
  }

  /** More seconds shared come first, then the later beginning, then the lower id. */
  ghost predicate Better(a: OutageReport, b: OutageReport, start: int, end: int) {
    var x, y := SharedSeconds(a, start, end), SharedSeconds(b, start, end);
    || x > y
    || (x == y && a.beginsAt > b.beginsAt)
    || (x == y && a.beginsAt == b.beginsAt && a.id < b.id)
  }

  ghost predicate IsResponsible(event: ProbeLogEvent, reports: seq<OutageReport>, keysOf: KeysOf, now: Instant,
                                answer: Option<OutageReport>) {
    match answer
    case None => forall r :: r in reports ==> !EventCoveredBy(event, r, keysOf, now)
    case Some(best) =>
      && best in reports
      && EventCoveredBy(event, best, keysOf, now)
      && forall r :: r in reports && EventCoveredBy(event, r, keysOf, now)
           ==> !Better(r, best, event.event.changedAt, LogEventEnd(event, now))
  }

  /** What the loop makes of one more report. */
  ghost function NextBest(event: ProbeLogEvent, keysOf: KeysOf, now: Instant, best: Option<OutageReport>,
                          r: OutageReport)
    : Option<OutageReport>
  {
    if !EventCoveredBy(event, r, keysOf, now) then best
    else if best.None? || Better(r, best.value, event.event.changedAt, LogEventEnd(event, now)) then Some(r)
    else best
  }

  /** One more report either is no candidate, or loses to the best so far, or replaces it. */
  lemma ResponsibleOfOneMore(event: ProbeLogEvent, reports: seq<OutageReport>, keysOf: KeysOf, now: Instant,
                             best: Option<OutageReport>, r: OutageReport)
    requires IsResponsible(event, reports, keysOf, now, best)
    ensures IsResponsible(event, reports + [r], keysOf, now, NextBest(event, keysOf, now, best, r))
  {
  }

  method ResponsibleReport(event: ProbeLogEvent, reports: seq<OutageReport>, keysOf: KeysOf, now: Instant)
    returns (best: Option<OutageReport>)
    ensures IsResponsible(event, reports, keysOf, now, best)
  {
    best := None;
    if IsOperational(event.event.status) || event.event.changedAt == 0 || |reports| == 0 {
      return;
    }
    var key := HistoryKey(event.event.target.kind, event.event.target.id);
    var probeStart := event.event.changedAt;
    var probeEnd := if event.endsAt == 0 then now else event.endsAt;
    if probeEnd < probeStart {
      probeEnd := probeStart;
    }
    assert probeEnd == LogEventEnd(event, now);

    var bestOverlap := 0;
    for i := 0 to |reports|
      invariant IsResponsible(event, reports[..i], keysOf, now, best)
      invariant best.Some? ==> bestOverlap == SharedSeconds(best.value, probeStart, probeEnd)
    {
      assert reports[..i + 1] == reports[..i] + [reports[i]];
      ResponsibleOfOneMore(event, reports[..i], keysOf, now, best, reports[i]);
      best, bestOverlap := ConsiderReport(event, reports[i], key, probeStart, probeEnd, keysOf, now, best, bestOverlap);
    }
    assert reports[..|reports|] == reports;
  }

  /** The body of the loop. */
  method ConsiderReport(ghost event: ProbeLogEvent, report: OutageReport, key: HistoryKey, probeStart: Instant,
                        probeEnd: Instant, keysOf: KeysOf, ghost now: Instant, best0: Option<OutageReport>,
                        bestOverlap0: int)
    returns (best: Option<OutageReport>, bestOverlap: int)
    requires IsBad(event.event.status) && event.event.changedAt != 0
    requires key == HistoryKey(event.event.target.kind, event.event.target.id)
    requires probeStart == event.event.changedAt && probeEnd == LogEventEnd(event, now)
    requires best0.Some? ==> bestOverlap0 == SharedSeconds(best0.value, probeStart, probeEnd)
    ensures best == NextBest(event, keysOf, now, best0, report)
    ensures best.Some? ==> bestOverlap == SharedSeconds(best.value, probeStart, probeEnd)
  {
    best, bestOverlap := best0, bestOverlap0;
    if report.beginsAt == 0 || key !in keysOf(report) {
      return;
    }
    var (reportStart, reportEnd) := OutageReportInterval(report);
    var (graceStart, graceEnd) := (reportStart - REPORTED_INCIDENT_GRACE, reportEnd + REPORTED_INCIDENT_GRACE);
    SharesInstantByOverlap(report, probeStart, probeEnd);
    if !IntervalsOverlap(probeStart, probeEnd, graceStart, graceEnd) {
      return;
    }
    var overlap := Min(probeEnd, graceEnd) - Max(probeStart, graceStart);
    OverlapCountsSharedSeconds(report, probeStart, probeEnd);
    if best.None?
       || overlap > bestOverlap
       || (overlap == bestOverlap && report.beginsAt > best.value.beginsAt)
       || (overlap == bestOverlap && report.beginsAt == best.value.beginsAt && report.id < best.value.id)
    {
      best := Some(report);
      bestOverlap := overlap;
    }
  }

  ghost predicate UniqueIds(reports: seq<OutageReport>) {
    forall a, b :: a in reports && b in reports && a.id == b.id ==> a == b
  }

  /** With unique ids the responsible report does not depend on the order or repetition of the list. */
  lemma ResponsibleReportIgnoresOrder(event: ProbeLogEvent, reports: seq<OutageReport>, reports': seq<OutageReport>,
                                      keysOf: KeysOf, now: Instant, answer: Option<OutageReport>,
                                      answer': Option<OutageReport>)
    requires UniqueIds(reports)
    requires forall r :: r in reports <==> r in reports'
    requires IsResponsible(event, reports, keysOf, now, answer)
    requires IsResponsible(event, reports', keysOf, now, answer')
    ensures answer == answer'
  {
    if answer.Some? && answer'.Some? {
      var a, b := answer.value, answer'.value;
      assert !Better(a, b, event.event.changedAt, LogEventEnd(event, now));
      assert !Better(b, a, event.event.changedAt, LogEventEnd(event, now));
      assert a.id == b.id;
    }
  }

  // ---- The two views agree

  /**
    An incident of any run, stored or shown, is hidden from the bars exactly if the probe log holds a
    responsible report against its row; and its entity's log lists that row if it began in the window.
  */
  lemma HiddenExactlyIfLogRowIsCovered(samples: seq<Sample>, now: Instant, cutoff: int, answer: seq<ProbeIncident>,
                                       r: ProbeIncident, reports: seq<OutageReport>, keysOf: KeysOf)
    returns (i: nat)
    requires forall k :: NonDecreasing(SamplesOf(samples, k))
    requires IsProbeIncidentsAnswer(Run(samples), now, cutoff, answer)
    requires r in Run(samples).incidents || r in answer
    ensures var events := Run(samples).events;
            && IsLogRowOf(events, i, r.target.Key(), SpanOf(r))
            && (LogEventAt(events, i) in EntityLog(events, r.target.kind, r.target.id, cutoff) <==>
              r.startsAt >= cutoff)
            && forall responsible :: IsResponsible(LogEventAt(events, i), reports, keysOf, now, responsible) ==>
                 (IncidentIsCovered(r, reports, keysOf, now) <==> responsible.Some?)
  {
    i := EveryIncidentHasALogRow(samples, now, cutoff, answer, r);
    var events, k := Run(samples).events, r.target.Key();
    LogSplitsAt(events, i);
    LogIsRunLengthCompression(samples, k);
    OnlyNamedTargetsAreSampled(samples, k);
    var event := LogEventAt(events, i);
    LogEventHoldsRow(events, i);
    EntityLogListsItsRows(events, k.kind, k.id, cutoff, event);
    assert r.startsAt >= cutoff ==> IsListed(events, i, k.kind, k.id, cutoff, event);
    assert event.event.changedAt == r.startsAt && event.event.status == r.status;
    assert EntityKey(event.event.target) == EntityKey(r.target);
    assert LogEventEnd(event, now) == EndOr(r.endsAt, now, r.startsAt);
    assert forall x :: EventCoveredBy(event, x, keysOf, now) <==>
             r.startsAt != 0 && Covers(x, HistoryKey(r.target.kind, r.target.id), r.startsAt,
                                       EndOr(r.endsAt, now, r.startsAt), keysOf);
  }

  // ---- Grouping of covered log rows

  /** `coveredBy` is the responsible report's id, or 0. */
  datatype ProbeEventView = ProbeEventView(coveredBy: int, groupStart: bool, groupEnd: bool) {
    predicate HasCoverage() {
      coveredBy != 0
    }
  }

  predicate SameCoverage(a: ProbeEventView, b: ProbeEventView) {
    a.coveredBy != 0 && a.coveredBy == b.coveredBy
  }

  predicate StartsGroup(views: seq<ProbeEventView>, i: nat)
    requires i < |views|
  {
    views[i].HasCoverage() && (i == 0 || !SameCoverage(views[i - 1], views[i]))
  }

  predicate EndsGroup(views: seq<ProbeEventView>, i: nat)
    requires i < |views|
  {
    views[i].HasCoverage() && (i == |views| - 1 || !SameCoverage(views[i], views[i + 1]))
  }

  ghost predicate IsGrouped(views: seq<ProbeEventView>) {
    forall i :: 0 <= i < |views| ==>
      views[i].groupStart == StartsGroup(views, i) && views[i].groupEnd == EndsGroup(views, i)
  }

  ghost predicate SameReports(views: seq<ProbeEventView>, views': seq<ProbeEventView>) {
    |views| == |views'| && forall i :: 0 <= i < |views| ==> views[i].coveredBy == views'[i].coveredBy
  }

  method SetProbeEventCoverageGroups(events: array<ProbeEventView>)
    requires forall i :: 0 <= i < events.Length ==> !events[i].groupStart && !events[i].groupEnd
    modifies events
    ensures SameReports(events[..], old(events[..]))
    ensures IsGrouped(events[..])
  {
    ghost var was := events[..];
    for i := 0 to events.Length
      invariant forall j :: 0 <= j < events.Length ==> events[j].coveredBy == was[j].coveredBy
      invariant forall j :: 0 <= j < i ==>
                  events[j].groupStart == StartsGroup(was, j) && events[j].groupEnd == EndsGroup(was, j)
      invariant forall j :: i <= j < events.Length ==> events[j] == was[j]
    {
      if !events[i].HasCoverage() {
        continue;
      }
      var start := i == 0 || !SameCoverage(events[i - 1], events[i]);
      events[i] := events[i].(groupStart := start);
      var end := i == events.Length - 1 || !SameCoverage(events[i], events[i + 1]);
      events[i] := events[i].(groupEnd := end);
    }
  }

  /** [a, b] is all of a block of rows with one report, marked at its ends and nowhere inside. */
  ghost predicate IsMarkedBlock(views: seq<ProbeEventView>, a: int, b: int) {
    && 0 <= a <= b < |views|
    && (a > 0 ==> views[a - 1].coveredBy != views[a].coveredBy)
    && (b < |views| - 1 ==> views[b + 1].coveredBy != views[a].coveredBy)
    && views[a].groupStart && views[b].groupEnd
    && (forall i :: a <= i <= b ==> views[i].coveredBy == views[a].coveredBy != 0)
    && (forall i :: a < i <= b ==> !views[i].groupStart)
    && (forall i :: a <= i < b ==> !views[i].groupEnd)
  }

  /** A covered row lies in a marked block, and an uncovered row in none; only covered rows are marked. */
  lemma CoveredRowsFormMarkedBlocks(views: seq<ProbeEventView>, i: nat)
    requires IsGrouped(views) && i < |views|
    ensures views[i].coveredBy != 0 <==> exists a, b :: a <= i <= b && IsMarkedBlock(views, a, b)
    ensures views[i].groupStart || views[i].groupEnd ==> views[i].coveredBy != 0
  {
    if views[i].HasCoverage() {
      var a := BlockStart(views, i);
      var b := BlockEnd(views, i);
      assert IsMarkedBlock(views, a, b);
    }
  }

  /** No row lies in two marked blocks. */
  lemma MarkedBlocksAreDisjoint(views: seq<ProbeEventView>, i: nat, a: int, b: int, c: int, d: int)
    requires a <= i <= b && IsMarkedBlock(views, a, b)
    requires c <= i <= d && IsMarkedBlock(views, c, d)
    ensures a == c && b == d
  {
  }

  lemma {:induction false} BlockStart(views: seq<ProbeEventView>, i: nat) returns (a: nat)
    requires IsGrouped(views) && i < |views| && views[i].HasCoverage()
    ensures a <= i && views[a].groupStart
    ensures forall j :: a <= j <= i ==> views[j].coveredBy == views[i].coveredBy
    ensures forall j :: a < j <= i ==> !views[j].groupStart
    ensures forall j :: a <= j < i ==> !views[j].groupEnd
  {
    if views[i].groupStart {
      a := i;
    } else {
      assert !StartsGroup(views, i);
      assert !EndsGroup(views, i - 1);
      a := BlockStart(views, i - 1);
    }
  }

  lemma {:induction false} BlockEnd(views: seq<ProbeEventView>, i: nat) returns (b: nat)
    requires IsGrouped(views) && i < |views| && views[i].HasCoverage()
    ensures i <= b < |views| && views[b].groupEnd
    ensures forall j :: i <= j <= b ==> views[j].coveredBy == views[i].coveredBy
    ensures forall j :: i < j <= b ==> !views[j].groupStart
    ensures forall j :: i <= j < b ==> !views[j].groupEnd
    decreases |views| - i
  {
    if views[i].groupEnd {
      b := i;
    } else {
      assert !EndsGroup(views, i);
      assert !StartsGroup(views, i + 1);
      b := BlockEnd(views, i + 1);
    }
  }
}
