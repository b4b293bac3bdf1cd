/** From samples to the page: what a day of an entity's bar shows, told by its raw samples and its outage reports. */
module EntityDays {
  import opened Common
  import opened Outages
  import opened HistoryBars
  import opened HistoryBarLaws
  import opened HistoryViews
  import opened ViewAgreement
  import opened ProbeStore
  import opened ProbeRuns
  import opened ProbeQueries
  import opened Coverage
  import Sorting

  // ---- Long bad runs of samples and of the log

  /** Samples i up to j are a maximal run of one bad status that lasted the threshold, up to `now` if unfinished. */
  ghost predicate IsLongSampleRun(xs: seq<Sample>, i: nat, j: nat, now: int, span: Span) {
    && MaximalRun(xs, i, j)
    && span == Span(xs[i].status, xs[i].at, if j < |xs| then Some(xs[j].at) else None)
    && IsBad(span.status)
    && (if span.endsAt.Some? then span.endsAt.value else now) >= span.startsAt + PROBE_INCIDENT_THRESHOLD
  }

  ghost predicate IsLongBadStretch(xs: seq<Sample>, now: int, span: Span) {
    exists i: nat, j: nat :: IsLongSampleRun(xs, i, j, now, span)
  }

  ghost predicate IsLongLogRun(log: seq<ProbeEvent>, now: int, span: Span) {
    exists i: nat :: IsLongBadRun(log, i, now, span)
  }

  lemma RunIsDescribed(xs: seq<Sample>, i: nat, j: nat)
    requires MaximalRun(xs, i, j)
    ensures exists m: nat :: m < j && DescribedBy(xs, i, j, m)
  {
    var p := xs[..j];
    assert forall n :: 0 <= n < j ==> p[n] == xs[n];
    assert RunStart(p) == i;
    assert DescribedBy(xs, i, j, Describer(p));
  }

  lemma FinishedStretchIsLogged(xs: seq<Sample>, now: int, span: Span)
    requires span.endsAt.Some?
    ensures IsLongBadStretch(xs, now, span) <==> IsLongLogRun(Compress(xs), now, span)
  {
    FinishedSpansAreLongBadRuns(Compress(xs), now, span);
    FinishedRowsMatchLog(xs);
    SpansOfMembers(FinishedRows(xs), span);
    if i: nat, j: nat :| IsLongSampleRun(xs, i, j, now, span) {
      RunIsDescribed(xs, i, j);
      var m: nat :| m < j && DescribedBy(xs, i, j, m);
      var row := ProbeIncident(xs[m].target, xs[i].status, xs[m].message, xs[i].at, Some(xs[j].at));
      assert IsIncidentOfRun(xs, i, j, m, row);
      RunIsFinishedRow(xs, i, j, m, row);
      assert SpanOf(row) == span;
    }
    if row :| row in FinishedRows(xs) && SpanOf(row) == span {
      var i, j, m := FinishedRowIsRun(xs, row);
      assert IsLongSampleRun(xs, i, j, now, span);
    }
  }

  lemma CurrentStretchIsLogged(xs: seq<Sample>, now: int, span: Span)
    requires span.endsAt.None?
    ensures IsLongBadStretch(xs, now, span) <==> IsLongLogRun(Compress(xs), now, span)
  {
    if xs != [] {
      var log, c := Compress(xs), RunStart(xs);
      LastLogRow(xs);
      assert xs[c].status == xs[|xs| - 1].status;
      if i: nat, j: nat :| IsLongSampleRun(xs, i, j, now, span) {
        assert IsLongBadRun(log, |log| - 1, now, span);
      }
      if i: nat :| IsLongBadRun(log, i, now, span) {
        assert i == |log| - 1;
        assert IsLongSampleRun(xs, c, |xs|, now, span);
      }
    }
  }

  /** The long bad runs of the log are those of the samples. */
  lemma LogRunsAreSampleRuns(samples: seq<Sample>, k: ProbeKey, now: int, span: Span)
    ensures IsLongBadStretch(SamplesOf(samples, k), now, span) <==>
              IsLongLogRun(EventsOf(Run(samples).events, k), now, span)
  {
    LogIsRunLengthCompression(samples, k);
    if span.endsAt.Some? {
      FinishedStretchIsLogged(SamplesOf(samples, k), now, span);
    } else {
      CurrentStretchIsLogged(SamplesOf(samples, k), now, span);
    }
  }

  // ---- What touches a day

  ghost predicate SpanTouches(span: Span, now: Instant, day: int, localDay: Calendar) {
    span.startsAt != 0 && localDay(span.startsAt) <= day <= localDay(EndOr(span.endsAt, now, span.startsAt))
  }

  /** Some report that affects the entity, widened by the grace, meets the stretch. */
  ghost predicate IsReported(span: Span, key: HistoryKey, data: HistoryData) {
    exists r :: r in data.reports
                && Covers(r, key, span.startsAt, EndOr(span.endsAt, data.now, span.startsAt), data.keysOf)
  }

  ghost predicate IsUnreportedRun(samples: seq<Sample>, data: HistoryData, key: HistoryKey, day: int, k: ProbeKey,
                                  span: Span) {
    && k.kind == key.kind && k.id == key.id
    && IsLongBadStretch(SamplesOf(samples, k), data.now, span)
    && SpanTouches(span, data.now, day, data.localDay)
    && !IsReported(span, key, data)
  }

  /** A long bad run of one of the entity's targets, which no report accounts for, touches the day. */
  ghost predicate UnreportedRunTouches(samples: seq<Sample>, data: HistoryData, key: HistoryKey, day: int) {
    exists k, span :: IsUnreportedRun(samples, data, key, day, k, span)
  }

  ghost predicate ReportTouches(data: HistoryData, key: HistoryKey, day: int, planned: bool) {
    exists r :: r in data.reports && IsTouchingReport(data, key, day, planned, r)
  }

  /** The report affects the entity, has some text, and speaks for some part of the day. */
  ghost predicate IsTouchingReport(data: HistoryData, key: HistoryKey, day: int, planned: bool, r: OutageReport) {
    && r.planned == planned && key in data.keysOf(r)
    && r.beginsAt != 0 && data.reportView(r).text != ""
    && data.localDay(r.beginsAt) <= day <= data.localDay(LastInstant(r))
  }

  ghost predicate IncidentTouches(data: HistoryData, key: HistoryKey, day: int) {
    exists x :: x in data.incidents && IsTouchingIncident(data, key, day, x)
  }

  ghost predicate IsTouchingIncident(data: HistoryData, key: HistoryKey, day: int, x: ProbeIncident) {
    && x.target.kind == key.kind && x.target.id == key.id && data.incidentView(x).text != ""
    && SpanTouches(SpanOf(x), data.now, day, data.localDay)
  }

  lemma ReportReadsAsInterval(data: HistoryData, key: HistoryKey, day: int, r: OutageReport)
    requires key in data.keysOf(r)
    ensures ReportApplication(data, r, key).Touches(day, data.localDay) <==>
              IsTouchingReport(data, key, day, r.planned, r)
  {
    assert r.beginsAt != 0 ==> ReportApplication(data, r, key).End() == LastInstant(r);
  }

  /** An incident touches a day as its span does. */
  lemma IncidentReadsAsSpan(data: HistoryData, key: HistoryKey, day: int, x: ProbeIncident)
    ensures EntityKey(x.target) == key ==>
              (IncidentApplication(data, x).Touches(day, data.localDay) <==> IsTouchingIncident(data, key, day, x))
    ensures IsTouchingIncident(data, key, day, x) ==> EntityKey(x.target) == key
  {
    var a := IncidentApplication(data, x);
    assert a.End() == EndOr(x.endsAt, data.now, x.startsAt);
  }

  // ---- The incidents an entity is given

  /** What touches the entity's day among the incidents it is given: its touching reports and probe incidents. */
  lemma TouchingApplications(data: HistoryData, key: HistoryKey, day: int, a: Application)
    ensures a in ReportApps(data, |data.reports|, key) && a.Touches(day, data.localDay) <==>
              exists r :: r in data.reports && IsTouchingReport(data, key, day, r.planned, r)
                          && a == ReportApplication(data, r, key)
    ensures a in IncidentApps(data, |data.incidents|, key) && a.Touches(day, data.localDay) <==>
              exists x :: x in data.incidents && IsTouchingIncident(data, key, day, x)
                          && a == IncidentApplication(data, x)
  {
    ReportAppsMembers(data, |data.reports|, key, a);
    IncidentAppsMembers(data, |data.incidents|, key, a);
    assert data.reports[..|data.reports|] == data.reports && data.incidents[..|data.incidents|] == data.incidents;
    forall r | key in data.keysOf(r)
      ensures ReportApplication(data, r, key).Touches(day, data.localDay) <==>
                IsTouchingReport(data, key, day, r.planned, r)
    {
      ReportReadsAsInterval(data, key, day, r);
    }
    forall x: ProbeIncident
      ensures EntityKey(x.target) == key ==>
                (IncidentApplication(data, x).Touches(day, data.localDay) <==> IsTouchingIncident(data, key, day, x))
      ensures IsTouchingIncident(data, key, day, x) ==> EntityKey(x.target) == key
    {
      IncidentReadsAsSpan(data, key, day, x);
    }
  }

  lemma OutageTouchesIffReported(data: HistoryData, key: HistoryKey, day: int)
    ensures SomeOutageTouches(EntityApps(data, key), day, data.localDay) <==> ReportTouches(data, key, day, false)
  {
    var apps := EntityApps(data, key);
    if a :| a in apps && a.Touches(day, data.localDay) && a.severity == Outage {
      EntityAppsMembers(data, key, a);
      var r :| r in data.reports && key in data.keysOf(r) && a == ReportApplication(data, r, key);
      ReportReadsAsInterval(data, key, day, r);
      assert IsTouchingReport(data, key, day, false, r);
    }
    if r :| r in data.reports && IsTouchingReport(data, key, day, false, r) {
      ReportReadsAsInterval(data, key, day, r);
      EntityAppsMembers(data, key, ReportApplication(data, r, key));
      assert IsReportApp(data, key, ReportApplication(data, r, key));
    }
  }

  lemma SomethingTouchesIff(data: HistoryData, key: HistoryKey, day: int)
    ensures SomeTouches(EntityApps(data, key), day, data.localDay) <==>
              ReportTouches(data, key, day, false) || ReportTouches(data, key, day, true)
                || IncidentTouches(data, key, day)
  {
    var apps := EntityApps(data, key);
    if a :| a in apps && a.Touches(day, data.localDay) {
      EntityAppsMembers(data, key, a);
      if IsReportApp(data, key, a) {
        var r :| r in data.reports && key in data.keysOf(r) && a == ReportApplication(data, r, key);
        ReportReadsAsInterval(data, key, day, r);
        assert IsTouchingReport(data, key, day, r.planned, r);
      } else {
        var x :| x in data.incidents && EntityKey(x.target) == key && a == IncidentApplication(data, x);
        IncidentReadsAsSpan(data, key, day, x);
        assert IsTouchingIncident(data, key, day, x);
      }
    }
    forall planned | ReportTouches(data, key, day, planned)
      ensures SomeTouches(apps, day, data.localDay)
    {
      var r :| r in data.reports && IsTouchingReport(data, key, day, planned, r);
      ReportReadsAsInterval(data, key, day, r);
      EntityAppsMembers(data, key, ReportApplication(data, r, key));
      assert IsReportApp(data, key, ReportApplication(data, r, key));
    }
    if IncidentTouches(data, key, day) {
      var x :| x in data.incidents && IsTouchingIncident(data, key, day, x);
      IncidentReadsAsSpan(data, key, day, x);
      EntityAppsMembers(data, key, IncidentApplication(data, x));
      assert IsIncidentApp(data, key, IncidentApplication(data, x));
    }
  }

  // ---- The page of a database

  /**
    The page is made of what the database of these samples answers: its incidents less those that a report accounts
    for. `cutoff` is the first instant of the first day shown, no target's clock ran back, `now` is not behind, and
    every incident has some text.
  */
  ghost predicate IsPageOf(data: HistoryData, samples: seq<Sample>, cutoff: int, answer: seq<ProbeIncident>) {
    && (forall k :: NonDecreasing(SamplesOf(samples, k)))
    && IsProbeIncidentsAnswer(Run(samples), data.now, cutoff, answer)
    && NowNotBehind(Run(samples), data.now)
    && data.incidents == Sorting.Selected(IsVisible(data.reports, data.keysOf, data.now), answer)
    && (forall t: Instant :: t < cutoff ==> data.localDay(t) < DayNumber(data, 0))
    && (forall x :: data.incidentView(x).text != "")
  }

  lemma ShownIffStretch(data: HistoryData, samples: seq<Sample>, cutoff: int, answer: seq<ProbeIncident>, k: ProbeKey,
                        span: Span)
    requires IsPageOf(data, samples, cutoff, answer)
    ensures Shows(answer, k, span) <==>
              (span.endsAt.Some? ==> span.endsAt.value >= cutoff)
                && IsLongBadStretch(SamplesOf(samples, k), data.now, span)
  {
    SpanShownIffDeserved(samples, data.now, cutoff, answer, k, span);
    LogRunsAreSampleRuns(samples, k, data.now, span);
  }

  /** An incident is covered as its span is. */
  lemma IncidentIsCoveredAsSpan(data: HistoryData, x: ProbeIncident)
    requires x.target.kind != "" && x.target.id != "" && x.startsAt != 0
    ensures IncidentIsCovered(x, data.reports, data.keysOf, data.now) <==>
              IsReported(SpanOf(x), HistoryKey(x.target.kind, x.target.id), data)
  {
  }

  lemma TouchingIncidentIsRun(data: HistoryData, samples: seq<Sample>, cutoff: int, answer: seq<ProbeIncident>,
                              key: HistoryKey, day: int, x: ProbeIncident)
    requires IsPageOf(data, samples, cutoff, answer)
    requires x in data.incidents && IsTouchingIncident(data, key, day, x)
    ensures UnreportedRunTouches(samples, data, key, day)
  {
    var k, span := x.target.Key(), SpanOf(x);
    Sorting.SelectedMembers(IsVisible(data.reports, data.keysOf, data.now), answer);
    assert Shows(answer, k, span);
    ShownIffStretch(data, samples, cutoff, answer, k, span);
    OnlyNamedTargetsAreSampled(samples, k);
    IncidentIsCoveredAsSpan(data, x);
    assert IsUnreportedRun(samples, data, key, day, k, span);
  }

  lemma RunIsTouchingIncident(data: HistoryData, samples: seq<Sample>, cutoff: int, answer: seq<ProbeIncident>,
                              key: HistoryKey, day: int, k: ProbeKey, span: Span)
    requires IsPageOf(data, samples, cutoff, answer) && day >= DayNumber(data, 0)
    requires IsUnreportedRun(samples, data, key, day, k, span)
    ensures IncidentTouches(data, key, day)
  {
    assert span.endsAt.Some? ==> EndOr(span.endsAt, data.now, span.startsAt) == span.endsAt.value;
    assert span.endsAt.Some? ==> span.endsAt.value >= cutoff;
    ShownIffStretch(data, samples, cutoff, answer, k, span);
    var x :| x in answer && x.target.Key() == k && SpanOf(x) == span;
    OnlyNamedTargetsAreSampled(samples, k);
    assert span.startsAt != 0;
    IncidentIsCoveredAsSpan(data, x);
    Sorting.SelectedMembers(IsVisible(data.reports, data.keysOf, data.now), answer);
    assert x in data.incidents && IsTouchingIncident(data, key, day, x);
  }

  lemma IncidentTouchesIffRunDoes(data: HistoryData, samples: seq<Sample>, cutoff: int, answer: seq<ProbeIncident>,
                                  key: HistoryKey, day: int)
    requires IsPageOf(data, samples, cutoff, answer) && day >= DayNumber(data, 0)
    ensures IncidentTouches(data, key, day) <==> UnreportedRunTouches(samples, data, key, day)
  {
    if x :| x in data.incidents && IsTouchingIncident(data, key, day, x) {
      TouchingIncidentIsRun(data, samples, cutoff, answer, key, day, x);
    }
    if k, span :| IsUnreportedRun(samples, data, key, day, k, span) {
      RunIsTouchingIncident(data, samples, cutoff, answer, key, day, k, span);
    }
  }

  lemma WorstIsOfSamplesAndReports(data: HistoryData, samples: seq<Sample>, cutoff: int, answer: seq<ProbeIncident>,
                                   key: HistoryKey, day: int)
    requires IsPageOf(data, samples, cutoff, answer) && day >= DayNumber(data, 0)
    ensures Worst(EntityApps(data, key), day, data.localDay) == ExpectedState(samples, data, key, day)
  {
    OutageTouchesIffReported(data, key, day);
    SomethingTouchesIff(data, key, day);
    IncidentTouchesIffRunDoes(data, samples, cutoff, answer, key, day);
  }

  /** An unplanned report makes the day an outage; else a planned one, or an unreported run, makes it maintenance. */
  ghost function ExpectedState(samples: seq<Sample>, data: HistoryData, key: HistoryKey, day: int): Severity {
    if ReportTouches(data, key, day, false) then Outage
    else if ReportTouches(data, key, day, true) || UnreportedRunTouches(samples, data, key, day) then Maintenance
    else Operational
  }

  lemma EntityDayIsWorst(data: HistoryData, key: HistoryKey, d: nat, state: Severity)
    requires d < WindowDays(data.days) && state == Worst(EntityApps(data, key), DayNumber(data, d), data.localDay)
    ensures EntityDayIs(data, key, d, state)
  {
    EntityBarDay(data, key, d);
  }

  /**
    End to end: a day of an entity's bar shows an outage exactly if an unplanned report that affects the entity
    touches it; else maintenance exactly if a planned one does, or a bad run of at least five minutes of one of the
    entity's targets does for which no report accounts; else all is well.
  */
  lemma EntityDayShowsSamplesAndReports(data: HistoryData, samples: seq<Sample>, cutoff: int,
                                        answer: seq<ProbeIncident>, key: HistoryKey, d: nat)
    requires IsPageOf(data, samples, cutoff, answer) && d < WindowDays(data.days)
    ensures EntityDayIs(data, key, d, ExpectedState(samples, data, key, DayNumber(data, d)))
  {
    WorstIsOfSamplesAndReports(data, samples, cutoff, answer, key, DayNumber(data, d));
    EntityDayIsWorst(data, key, d, ExpectedState(samples, data, key, DayNumber(data, d)));
  }

  ghost predicate IsTouchingView(data: HistoryData, key: HistoryKey, day: int, inc: IncidentView) {
    exists r :: r in data.reports && IsTouchingReport(data, key, day, r.planned, r) && data.reportView(r) == inc
  }

  ghost predicate IsTouchingIncidentView(data: HistoryData, key: HistoryKey, day: int, inc: IncidentView) {
    exists x :: x in data.incidents && IsTouchingIncident(data, key, day, x) && data.incidentView(x) == inc
  }

  /** The first n entries are the touching reports, and with the others the list holds each touching incident once. */
  ghost predicate ListsTouching(list: seq<IncidentView>, n: nat, data: HistoryData, key: HistoryKey, day: int) {
    && n <= |list| && Sorting.Unique(list)
    && (forall inc :: inc in list[..n] <==> IsTouchingView(data, key, day, inc))
    && (forall inc :: inc in list <==>
          IsTouchingView(data, key, day, inc) || IsTouchingIncidentView(data, key, day, inc))
  }

  lemma ViewsOfTouching(data: HistoryData, key: HistoryKey, day: int, inc: IncidentView)
    ensures IsTouchingView(data, key, day, inc) <==>
              exists a :: a in ReportApps(data, |data.reports|, key) && a.Touches(day, data.localDay)
                          && a.incident == inc
    ensures IsTouchingIncidentView(data, key, day, inc) <==>
              exists a :: a in IncidentApps(data, |data.incidents|, key) && a.Touches(day, data.localDay)
                          && a.incident == inc
  {
    forall a
      ensures a in ReportApps(data, |data.reports|, key) && a.Touches(day, data.localDay) <==>
                exists r :: r in data.reports && IsTouchingReport(data, key, day, r.planned, r)
                            && a == ReportApplication(data, r, key)
      ensures a in IncidentApps(data, |data.incidents|, key) && a.Touches(day, data.localDay) <==>
                exists x :: x in data.incidents && IsTouchingIncident(data, key, day, x)
                            && a == IncidentApplication(data, x)
    {
      TouchingApplications(data, key, day, a);
    }
    if r :| r in data.reports && IsTouchingReport(data, key, day, r.planned, r) && data.reportView(r) == inc {
      assert ReportApplication(data, r, key).incident == inc;
    }
    if x :| x in data.incidents && IsTouchingIncident(data, key, day, x) && data.incidentView(x) == inc {
      assert IncidentApplication(data, x).incident == inc;
    }
  }

  /** A fresh day after the entity's reports and then its probe incidents. */
  lemma DayListsTouching(data: HistoryData, key: HistoryKey, start: DayView) returns (n: nat)
    requires start.state == Operational && start.incidents == []
    ensures ListsTouching(DayAfter(start, EntityApps(data, key), data.localDay).incidents, n, data, key, start.day)
  {
    var reports, incidents := ReportApps(data, |data.reports|, key), IncidentApps(data, |data.incidents|, key);
    var first := DayAfter(start, reports, data.localDay).incidents;
    DayShowsItsIncidents(start, reports, data.localDay);
    DayShowsItsIncidents(start, reports + incidents, data.localDay);
    LaterIncidentsComeLater(start, reports, incidents, data.localDay);
    n := |first|;
    forall inc
      ensures inc in first <==> IsTouchingView(data, key, start.day, inc)
      ensures inc in DayAfter(start, reports + incidents, data.localDay).incidents <==>
                IsTouchingView(data, key, start.day, inc) || IsTouchingIncidentView(data, key, start.day, inc)
    {
      ViewsOfTouching(data, key, start.day, inc);
    }
  }

  /**
    A day of an entity's bar lists, once each, the reports that affect the entity and touch the day, and after them the
    probe incidents of the entity that do.
  */
  lemma EntityDayListsReportsThenIncidents(data: HistoryData, key: HistoryKey, d: nat) returns (n: nat)
    requires d < WindowDays(data.days)
    ensures var own := EntityBar(data, key);
            d < |own.days| && ListsTouching(own.days[d].incidents, n, data, key, DayNumber(data, d))
  {
    DaysAreNumbered(data, d);
    BarAfterHasDays(data, [], EntityApps(data, key));
    assert EntityBar(data, key).days[d] == DayOfBar(data, [], EntityApps(data, key), d);
    n := DayListsTouching(data, key, FreshDay(FirstDay(data) + d, []));
  }

  /** A long bad run of one of the entity's targets touches the day. */
  ghost predicate LongBadRunTouches(samples: seq<Sample>, data: HistoryData, key: HistoryKey, day: int) {
    exists k: ProbeKey, span ::
      k.kind == key.kind && k.id == key.id && IsLongBadStretch(SamplesOf(samples, k), data.now, span)
      && SpanTouches(span, data.now, day, data.localDay)
  }

  /**
    Without affecting reports, a day shows maintenance exactly if a long bad run of the entity's samples
    touches it.
  */
  lemma UnreportedEntityDayShowsSamples(data: HistoryData, samples: seq<Sample>, cutoff: int,
                                        answer: seq<ProbeIncident>, key: HistoryKey, d: nat)
    requires IsPageOf(data, samples, cutoff, answer) && d < WindowDays(data.days)
    requires forall r :: r in data.reports ==> key !in data.keysOf(r)
    ensures EntityDayIs(data, key, d,
              if LongBadRunTouches(samples, data, key, DayNumber(data, d)) then Maintenance else Operational)
  {
    var day := DayNumber(data, d);
    EntityDayShowsSamplesAndReports(data, samples, cutoff, answer, key, d);
    if k: ProbeKey, span :|
      k.kind == key.kind && k.id == key.id && IsLongBadStretch(SamplesOf(samples, k), data.now, span)
      && SpanTouches(span, data.now, day, data.localDay)
    {
      assert IsUnreportedRun(samples, data, key, day, k, span);
    }
  }
}
