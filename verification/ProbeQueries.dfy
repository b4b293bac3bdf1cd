/**
  The incidents shown on the page, and that they are a function of the event log alone.
*/
module ProbeQueries {
  import opened Common
  import opened ProbeStore
  import opened ProbeRuns
  import Sorting

  // ---- ProbeIncidents: the incident table, completed by bad states that nobody promoted

  /** WHERE ends_at IS NULL OR ends_at >= cutoff OR starts_at >= cutoff */
  function InWindow(cutoff: int): ProbeIncident -> bool {
    (row: ProbeIncident) => row.endsAt.None? || row.endsAt.value >= cutoff || row.startsAt >= cutoff
  }

  predicate StartsBefore(a: ProbeIncident, b: ProbeIncident) {
    a.startsAt < b.startsAt
  }

  function WindowRows(rows: seq<ProbeIncident>, cutoff: int): seq<ProbeIncident> {
    Sorting.StableSorted(StartsBefore, Sorting.Selected(InWindow(cutoff), rows))
  }

  lemma WindowRowsMembers(rows: seq<ProbeIncident>, cutoff: int)
    ensures forall r :: r in WindowRows(rows, cutoff) <==> r in rows && InWindow(cutoff)(r)
  {
    Sorting.SelectedMembers(InWindow(cutoff), rows);
    Sorting.SortedHasSameElements(StartsBefore, Sorting.Selected(InWindow(cutoff), rows));
  }

  /** A bad state old enough to be an incident. */
  predicate IsDue(state: ProbeState, now: int) {
    !IsOperational(state.status) && now >= state.since + PROBE_INCIDENT_THRESHOLD
  }

  /** The due states that no open row in the window stands for. */
  function UnrecordedDueKeys(t: Tables, now: int, cutoff: int): set<ProbeKey> {
    set k | k in t.states && IsDue(t.states[k], now)
            && !HasOpenRow(WindowRows(t.incidents, cutoff), t.states[k].target.Key(), t.states[k].since)
  }

  /** `rest` lists one open incident for each of the keys, in some order. */
  ghost predicate ListsOpenIncidents(rest: seq<ProbeIncident>, states: map<ProbeKey, ProbeState>, keys: set<ProbeKey>) {
    && (forall i :: 0 <= i < |rest| ==>
          var k := rest[i].target.Key();
          k in keys && k in states && rest[i] == IncidentOf(states[k], None))
    && (forall i, j :: 0 <= i < j < |rest| ==> rest[i].target.Key() != rest[j].target.Key())
    && (forall k :: k in keys ==> k in states && IncidentOf(states[k], None) in rest)
  }

  /** Row i of the table was still open, or had an end or a beginning, since the cutoff. */
  ghost predicate IsWindowRow(rows: seq<ProbeIncident>, i: nat, cutoff: int) {
    && i < |rows|
    && (rows[i].endsAt.None? || rows[i].endsAt.value >= cutoff || rows[i].startsAt >= cutoff)
  }

  /** The answer shows first the recorded incidents of the window, by their start and then as they were recorded. */
  ghost predicate ShowsRecorded(answer: seq<ProbeIncident>, rows: seq<ProbeIncident>, cutoff: int, places: seq<nat>) {
    && |places| <= |answer| && Sorting.Unique(places)
    && (forall i: nat :: i in places <==> IsWindowRow(rows, i, cutoff))
    && (forall n :: 0 <= n < |places| ==> places[n] < |rows| && answer[n] == rows[places[n]])
    && (forall m, n :: 0 <= m < n < |places| ==>
          && answer[m].startsAt <= answer[n].startsAt
          && (answer[m].startsAt == answer[n].startsAt ==> places[m] < places[n]))
  }

  /** The row is an open incident made of a bad state that has lasted and that no open row of the table stands for. */
  ghost predicate IsUnrecorded(t: Tables, now: int, row: ProbeIncident, k: ProbeKey) {
    && k in t.states
    && var s := t.states[k];
       && row == ProbeIncident(s.target, s.status, s.message, s.since, None)
       && IsBad(s.status) && now >= s.since + PROBE_INCIDENT_THRESHOLD
       && forall r :: r in t.incidents && r.endsAt.None? && r.startsAt == s.since ==> r.target.Key() != s.target.Key()
  }

  ghost predicate IsSomeUnrecorded(t: Tables, now: int, row: ProbeIncident) {
    exists k :: IsUnrecorded(t, now, row, k)
  }

  /** The answer in full: recorded incidents in order, then bad states that were not promoted. */
  lemma ProbeIncidentsAreInOrder(t: Tables, now: int, cutoff: int, answer: seq<ProbeIncident>)
    returns (places: seq<nat>)
    requires IsProbeIncidentsAnswer(t, now, cutoff, answer)
    ensures ShowsRecorded(answer, t.incidents, cutoff, places)
    ensures forall n :: |places| <= n < |answer| ==> IsSomeUnrecorded(t, now, answer[n])
  {
    var rest: seq<ProbeIncident> :| answer == WindowRows(t.incidents, cutoff) + rest
                && ListsOpenIncidents(rest, t.states, UnrecordedDueKeys(t, now, cutoff));
    places := Sorting.AnswerPlaces(StartsBefore, InWindow(cutoff), t.incidents);
    assert forall i: nat :: i < |t.incidents| ==> (i in places <==> IsWindowRow(t.incidents, i, cutoff));
    WindowRowsMembers(t.incidents, cutoff);
    forall n | |places| <= n < |answer|
      ensures IsSomeUnrecorded(t, now, answer[n])
    {
      assert answer[n] == rest[n - |places|];
      var k := rest[n - |places|].target.Key();
      UnrecordedIsUnrecorded(t, now, cutoff, k);
      assert IsUnrecorded(t, now, answer[n], k);
    }
  }

  lemma UnrecordedIsUnrecorded(t: Tables, now: int, cutoff: int, k: ProbeKey)
    requires k in UnrecordedDueKeys(t, now, cutoff)
    ensures IsUnrecorded(t, now, IncidentOf(t.states[k], None), k)
  {
    var rows, s := WindowRows(t.incidents, cutoff), t.states[k];
    WindowRowsMembers(t.incidents, cutoff);
    forall r | r in t.incidents && r.endsAt.None? && r.startsAt == s.since
      ensures r.target.Key() != s.target.Key()
    {
      assert r in rows;
      var i :| 0 <= i < |rows| && rows[i] == r;
      assert !IsOpenRowOf(rows[i], s.target.Key(), s.since);
    }
  }

  /** What ProbeIncidents returns; the state query has no ORDER BY. */
  ghost predicate IsProbeIncidentsAnswer(t: Tables, now: int, cutoff: int, answer: seq<ProbeIncident>) {
    exists rest :: answer == WindowRows(t.incidents, cutoff) + rest
                   && ListsOpenIncidents(rest, t.states, UnrecordedDueKeys(t, now, cutoff))
  }

  // ---- Long bad runs, read off the event log

  /** A stretch of one bad status of a target, with message and label left out. */
  datatype Span = Span(status: string, startsAt: Instant, endsAt: Option<Instant>)

  function SpanOf(row: ProbeIncident): Span {
    Span(row.status, row.startsAt, row.endsAt)
  }

  function EndInLog(log: seq<ProbeEvent>, i: nat): Option<Instant>
    requires i < |log|
  {
    if i + 1 < |log| then Some(log[i + 1].changedAt) else None
  }

  /** Event i of a target's log begins a bad run that lasted the threshold, up to `now` if unfinished. */
  predicate IsLongBadRun(log: seq<ProbeEvent>, i: nat, now: int, span: Span) {
    && i < |log|
    && span == Span(log[i].status, log[i].changedAt, EndInLog(log, i))
    && !IsOperational(span.status)
    && (if span.endsAt.Some? then span.endsAt.value else now) >= span.startsAt + PROBE_INCIDENT_THRESHOLD
  }

  function SpansOf(rows: seq<ProbeIncident>): (r: seq<Span>)
    ensures |r| == |rows|
  {
    seq(|rows|, i requires 0 <= i < |rows| => SpanOf(rows[i]))
  }

  /** The finished long bad runs of a log, oldest first. */
  function FinishedSpans(log: seq<ProbeEvent>): seq<Span> {
    if |log| < 2 then []
    else
      var e, next := log[|log| - 2], log[|log| - 1];
      var rest := FinishedSpans(log[..|log| - 1]);
      if !IsOperational(e.status) && Lasted(e.changedAt, next.changedAt)
      then rest + [Span(e.status, e.changedAt, Some(next.changedAt))] else rest
  }

  lemma {:induction false} FinishedSpansAreLongBadRuns(log: seq<ProbeEvent>, now: int, span: Span)
    ensures span in FinishedSpans(log) <==> span.endsAt.Some? && exists i: nat :: IsLongBadRun(log, i, now, span)
  {
    if |log| >= 2 {
      var p := log[..|log| - 1];
      FinishedSpansAreLongBadRuns(p, now, span);
      if span.endsAt.Some? {
        assert forall i: nat :: i < |p| - 1 ==> (IsLongBadRun(p, i, now, span) <==> IsLongBadRun(log, i, now, span));
        assert !IsLongBadRun(p, |p| - 1, now, span);
        if i: nat :| IsLongBadRun(log, i, now, span) {
          assert i < |p| - 1 || i == |p| - 1;
        }
        if span in FinishedSpans(log) && span !in FinishedSpans(p) {
          assert IsLongBadRun(log, |log| - 2, now, span);
        }
      }
    }
  }

  /** Incident rows and event log tell the same finished runs. */
  lemma {:induction false} FinishedRowsMatchLog(xs: seq<Sample>)
    ensures SpansOf(FinishedRows(xs)) == FinishedSpans(Compress(xs))
  {
    if |xs| < 2 {
      assert |Compress(xs)| < 2;
    } else {
      var p := xs[..|xs| - 1];
      FinishedRowsMatchLog(p);
      LastLogRow(p);
      assert StateOf(p).status == p[|p| - 1].status;
      if RunStart(xs) == |xs| - 1 {
        assert Compress(xs)[..|Compress(xs)| - 1] == Compress(p);
      }
    }
  }

  lemma SpansOfMembers(rows: seq<ProbeIncident>, span: Span)
    ensures span in SpansOf(rows) <==> exists r :: r in rows && SpanOf(r) == span
  {
    if r :| r in rows && SpanOf(r) == span {
      var i :| 0 <= i < |rows| && rows[i] == r;
      assert SpansOf(rows)[i] == span;
    }
    if span in SpansOf(rows) {
      var i :| 0 <= i < |rows| && SpansOf(rows)[i] == span;
      assert rows[i] in rows;
    }
  }

  /** The incident table of a target, read through the log: finished long runs, and the current one if promoted. */
  lemma RowSpansMatchLog(samples: seq<Sample>, k: ProbeKey, now: int, span: Span)
    requires NonDecreasing(SamplesOf(samples, k))
    ensures var t, log := Run(samples), EventsOf(Run(samples).events, k);
            (exists r :: r in t.incidents && r.target.Key() == k && SpanOf(r) == span)
            <==> if span.endsAt.Some? then exists i: nat :: IsLongBadRun(log, i, now, span)
                 else k in t.states && t.states[k].promoted && span == Span(t.states[k].status, t.states[k].since, None)
  {
    var t, xs := Run(samples), SamplesOf(samples, k);
    var log := EventsOf(t.events, k);
    NeverStrandsInOrder(samples, k);
    IncidentTableHoldsLongRuns(samples, k);
    LogIsRunLengthCompression(samples, k);
    RowsOfMembers(t.incidents, k);
    FinishedRowsMatchLog(xs);
    SpansOfMembers(FinishedRows(xs), span);
    FinishedSpansAreLongBadRuns(log, now, span);
    var rows := RowsOf(t.incidents, k);
    assert (exists r :: r in t.incidents && r.target.Key() == k && SpanOf(r) == span) <==>
        (exists r :: r in rows && SpanOf(r) == span);
    if xs != [] && Promotion(xs).Some? {
      assert rows[|rows| - 1] == IncidentOf(StateOf(xs), None);
      assert rows[|rows| - 1] in rows;
    }
  }

  // ---- The answer of ProbeIncidents

  ghost predicate Shows(answer: seq<ProbeIncident>, k: ProbeKey, span: Span) {
    exists r :: r in answer && r.target.Key() == k && SpanOf(r) == span
  }

  ghost predicate LogDeserves(log: seq<ProbeEvent>, now: int, cutoff: int, span: Span) {
    && (span.endsAt.Some? ==> span.endsAt.value >= cutoff)
    && exists i: nat :: IsLongBadRun(log, i, now, span)
  }

  /** No promoted run is younger than the threshold at `now`; so it is unless `now` lies before a recorded sample. */
  ghost predicate NowNotBehind(t: Tables, now: int) {
    forall k :: k in t.states && t.states[k].promoted ==> IsDue(t.states[k], now)
  }

  lemma OpenRowOfStateIffPromoted(samples: seq<Sample>, k: ProbeKey, cutoff: int)
    requires NonDecreasing(SamplesOf(samples, k)) && k in Run(samples).states
    ensures HasOpenRow(WindowRows(Run(samples).incidents, cutoff), k, Run(samples).states[k].since)
            <==> Run(samples).states[k].promoted
  {
    var t := Run(samples);
    var rows, state := WindowRows(t.incidents, cutoff), t.states[k];
    WindowRowsMembers(t.incidents, cutoff);
    if i :| 0 <= i < |rows| && IsOpenRowOf(rows[i], k, state.since) {
      assert rows[i] in t.incidents;
      RowSpansMatchLog(samples, k, 0, SpanOf(rows[i]));
    }
    if state.promoted {
      RowSpansMatchLog(samples, k, 0, Span(state.status, state.since, None));
      var r :| r in t.incidents && r.target.Key() == k && SpanOf(r) == Span(state.status, state.since, None);
      assert r in rows;
      var i :| 0 <= i < |rows| && rows[i] == r;
      assert IsOpenRowOf(rows[i], k, state.since);
    }
  }

  /** The unfinished long bad run of a log, if any, is its state row. */
  lemma CurrentLogRun(samples: seq<Sample>, k: ProbeKey, now: int, span: Span)
    requires span.endsAt.None?
    ensures var t, log := Run(samples), EventsOf(Run(samples).events, k);
            (exists i: nat :: IsLongBadRun(log, i, now, span))
            <==> k in t.states && IsDue(t.states[k], now) && span == Span(t.states[k].status, t.states[k].since, None)
  {
    var t, log, xs := Run(samples), EventsOf(Run(samples).events, k), SamplesOf(samples, k);
    LogIsRunLengthCompression(samples, k);
    if xs != [] {
      LastLogRow(xs);
      assert forall i: nat :: IsLongBadRun(log, i, now, span) ==> i == |log| - 1;
      if k in t.states && IsDue(t.states[k], now) && span == Span(t.states[k].status, t.states[k].since, None) {
        assert IsLongBadRun(log, |log| - 1, now, span);
      }
    }
  }

  /** The row of a finished long bad run of the log. */
  lemma RowOfLongRun(samples: seq<Sample>, k: ProbeKey, now: int, span: Span) returns (r: ProbeIncident)
    requires NonDecreasing(SamplesOf(samples, k)) && span.endsAt.Some?
    requires exists i: nat :: IsLongBadRun(EventsOf(Run(samples).events, k), i, now, span)
    ensures r in Run(samples).incidents && r.target.Key() == k && SpanOf(r) == span
  {
    RowSpansMatchLog(samples, k, now, span);
    r :| r in Run(samples).incidents && r.target.Key() == k && SpanOf(r) == span;
  }

  lemma FinishedSpanShown(samples: seq<Sample>, now: int, cutoff: int, answer: seq<ProbeIncident>, k: ProbeKey,
                          span: Span)
    requires NonDecreasing(SamplesOf(samples, k))
    requires IsProbeIncidentsAnswer(Run(samples), now, cutoff, answer)
    requires span.endsAt.Some?
    ensures Shows(answer, k, span) <==> LogDeserves(EventsOf(Run(samples).events, k), now, cutoff, span)
  {
    var t := Run(samples);
    WindowRowsMembers(t.incidents, cutoff);
    RowSpansMatchLog(samples, k, now, span);
    var rest: seq<ProbeIncident> :| answer == WindowRows(t.incidents, cutoff) + rest
                && ListsOpenIncidents(rest, t.states, UnrecordedDueKeys(t, now, cutoff));
    assert forall r :: r in rest ==> r.endsAt.None?;
    if Shows(answer, k, span) {
      var r :| r in answer && r.target.Key() == k && SpanOf(r) == span;
      assert r in WindowRows(t.incidents, cutoff);
      assert r in t.incidents && InWindow(cutoff)(r);
    }
    if LogDeserves(EventsOf(t.events, k), now, cutoff, span) {
      var r := RowOfLongRun(samples, k, now, span);
      assert r in WindowRows(t.incidents, cutoff);
      assert r in answer;
    }
  }

  lemma OpenSpanShown(samples: seq<Sample>, now: int, cutoff: int, answer: seq<ProbeIncident>, k: ProbeKey, span: Span)
    requires NonDecreasing(SamplesOf(samples, k))
    requires IsProbeIncidentsAnswer(Run(samples), now, cutoff, answer)
    requires span.endsAt.None?
    ensures var t := Run(samples);
            Shows(answer, k, span) <==>
              && k in t.states
              && (t.states[k].promoted || IsDue(t.states[k], now))
              && span == Span(t.states[k].status, t.states[k].since, None)
  {
    var t := Run(samples);
    RunIsKeyedByTarget(samples);
    WindowRowsMembers(t.incidents, cutoff);
    RowSpansMatchLog(samples, k, now, span);
    var due := UnrecordedDueKeys(t, now, cutoff);
    var rest: seq<ProbeIncident> :| answer == WindowRows(t.incidents, cutoff) + rest
      && ListsOpenIncidents(rest, t.states, due);
    if k in t.states {
      OpenRowOfStateIffPromoted(samples, k, cutoff);
    }
    if Shows(answer, k, span) {
      var r :| r in answer && r.target.Key() == k && SpanOf(r) == span;
      if r in rest {
        var i :| 0 <= i < |rest| && rest[i] == r;
        assert k in due;
      } else {
        assert r in t.incidents;
      }
    }
    if k in t.states && span == Span(t.states[k].status, t.states[k].since, None) {
      if t.states[k].promoted {
        var r :| r in t.incidents && r.target.Key() == k && SpanOf(r) == span;
        assert r in WindowRows(t.incidents, cutoff);
        assert r in answer;
      } else if IsDue(t.states[k], now) {
        assert k in due;
        assert IncidentOf(t.states[k], None) in rest;
        assert IncidentOf(t.states[k], None) in answer;
      }
    }
  }

  lemma SpanShownIffDeserved(samples: seq<Sample>, now: int, cutoff: int, answer: seq<ProbeIncident>, k: ProbeKey,
                             span: Span)
    requires NonDecreasing(SamplesOf(samples, k))
    requires IsProbeIncidentsAnswer(Run(samples), now, cutoff, answer)
    requires NowNotBehind(Run(samples), now)
    ensures Shows(answer, k, span) <==> LogDeserves(EventsOf(Run(samples).events, k), now, cutoff, span)
  {
    if span.endsAt.Some? {
      FinishedSpanShown(samples, now, cutoff, answer, k, span);
    } else {
      OpenSpanShown(samples, now, cutoff, answer, k, span);
      CurrentLogRun(samples, k, now, span);
    }
  }

  ghost predicate AnswersFromLog(events: seq<ProbeEvent>, now: int, cutoff: int, answer: seq<ProbeIncident>) {
    forall k, span :: Shows(answer, k, span) <==> LogDeserves(EventsOf(events, k), now, cutoff, span)
  }

  /**
    Message and label aside, the answer is a function of the event log and `now`: the bad runs that lasted
    the threshold and are unfinished or ended in the window, whether or not a sample promoted them. It is
    so exactly if `now` does not fall inside the first five minutes of a run already promoted.
  */
  lemma ProbeIncidentsAnswerFromLog(samples: seq<Sample>, now: int, cutoff: int, answer: seq<ProbeIncident>)
    requires forall k :: NonDecreasing(SamplesOf(samples, k))
    requires IsProbeIncidentsAnswer(Run(samples), now, cutoff, answer)
    ensures AnswersFromLog(Run(samples).events, now, cutoff, answer) <==> NowNotBehind(Run(samples), now)
  {
    var t := Run(samples);
    if NowNotBehind(t, now) {
      forall k, span
        ensures Shows(answer, k, span) <==> LogDeserves(EventsOf(t.events, k), now, cutoff, span)
      {
        SpanShownIffDeserved(samples, now, cutoff, answer, k, span);
      }
    } else {
      var k :| k in t.states && t.states[k].promoted && !IsDue(t.states[k], now);
      var span := Span(t.states[k].status, t.states[k].since, None);
      OpenSpanShown(samples, now, cutoff, answer, k, span);
      CurrentLogRun(samples, k, now, span);
      assert Shows(answer, k, span) && !LogDeserves(EventsOf(t.events, k), now, cutoff, span);
    }
  }

  /** `now` at or after every sample of the promoted targets is enough. */
  lemma NowAfterSamplesIsNotBehind(samples: seq<Sample>, now: int)
    requires forall k, x :: x in SamplesOf(samples, k) ==> x.at <= now
    ensures NowNotBehind(Run(samples), now)
  {
    forall k | k in Run(samples).states && Run(samples).states[k].promoted
      ensures IsDue(Run(samples).states[k], now)
    {
      LogIsRunLengthCompression(samples, k);
      var xs := SamplesOf(samples, k);
      assert xs[Promotion(xs).value] in xs;
    }
  }

  // ---- A `now` that is behind

  /**
    The condition can fail: a target is down at 1000 and, which promotes the run, at 1300. A page whose `now` was
    read at 1200 shows an incident that the log does not yet deserve at that time.
  */
  lemma NowBehindShowsMoreThanTheLog(cutoff: int, answer: seq<ProbeIncident>)
    requires IsProbeIncidentsAnswer(Run(FAILED_TWICE), 1200, cutoff, answer)
    ensures forall k :: NonDecreasing(SamplesOf(FAILED_TWICE, k))
    ensures !NowNotBehind(Run(FAILED_TWICE), 1200)
    ensures Shows(answer, FAILING.Key(), Span("down", 1000, None))
    ensures !LogDeserves(EventsOf(Run(FAILED_TWICE).events, FAILING.Key()), 1200, cutoff, Span("down", 1000, None))
  {
    forall k
      ensures NonDecreasing(SamplesOf(FAILED_TWICE, k))
    {
      FailedTwiceInOrder(k);
    }
    FailedTwiceIsPromoted();
    OpenSpanShown(FAILED_TWICE, 1200, cutoff, answer, FAILING.Key(), Span("down", 1000, None));
    CurrentLogRun(FAILED_TWICE, FAILING.Key(), 1200, Span("down", 1000, None));
  }

  ghost predicate EachOnce(answer: seq<ProbeIncident>) {
    forall i, j :: 0 <= i < j < |answer| ==>
      answer[i].target.Key() != answer[j].target.Key() || answer[i].startsAt != answer[j].startsAt
  }

  lemma WindowRowsEachOnce(rows: seq<ProbeIncident>, cutoff: int)
    requires EachOnce(rows)
    ensures EachOnce(WindowRows(rows, cutoff))
  {
    var shown := WindowRows(rows, cutoff);
    assert Sorting.Unique(rows);
    Sorting.SelectedIsUnique(InWindow(cutoff), rows);
    Sorting.SortedIsUnique(StartsBefore, Sorting.Selected(InWindow(cutoff), rows));
    WindowRowsMembers(rows, cutoff);
    forall i, j | 0 <= i < j < |shown|
      ensures shown[i].target.Key() != shown[j].target.Key() || shown[i].startsAt != shown[j].startsAt
    {
      assert shown[i] in rows && shown[j] in rows;
      var a :| 0 <= a < |rows| && rows[a] == shown[i];
      var b :| 0 <= b < |rows| && rows[b] == shown[j];
    }
  }

  /** A target has no other row that starts when its current run does. */
  lemma RowAtCurrentStartIsOpen(samples: seq<Sample>, k: ProbeKey, r: ProbeIncident)
    requires NonDecreasing(SamplesOf(samples, k)) && k in Run(samples).states
    requires r in Run(samples).incidents && r.target.Key() == k && r.startsAt == Run(samples).states[k].since
    ensures r.endsAt.None?
  {
    var xs := SamplesOf(samples, k);
    LogIsRunLengthCompression(samples, k);
    NeverStrandsInOrder(samples, k);
    IncidentTableHoldsLongRuns(samples, k);
    RowsOfMembers(Run(samples).incidents, k);
    FinishedRowsAreSpaced(xs);
    assert r in IncidentRows(xs);
  }

  /** No incident is shown twice. */
  lemma ProbeIncidentsShowsEachOnce(samples: seq<Sample>, now: int, cutoff: int, answer: seq<ProbeIncident>)
    requires forall k :: NonDecreasing(SamplesOf(samples, k))
    requires IsProbeIncidentsAnswer(Run(samples), now, cutoff, answer)
    ensures EachOnce(answer)
  {
    var t := Run(samples);
    RunIsKeyedByTarget(samples);
    forall a, b | 0 <= a < b < |t.incidents|
      ensures t.incidents[a].target.Key() != t.incidents[b].target.Key()
                || t.incidents[a].startsAt != t.incidents[b].startsAt
    {
      if t.incidents[a].target.Key() == t.incidents[b].target.Key() {
        IncidentsAreStoredOnce(samples, t.incidents[a].target.Key(), a, b);
      }
    }
    WindowRowsEachOnce(t.incidents, cutoff);
    WindowRowsMembers(t.incidents, cutoff);
    var rows, due := WindowRows(t.incidents, cutoff), UnrecordedDueKeys(t, now, cutoff);
    var rest: seq<ProbeIncident> :| answer == rows + rest && ListsOpenIncidents(rest, t.states, due);
    forall i, j | 0 <= i < |rows| && 0 <= j < |rest|
      ensures rows[i].target.Key() != rest[j].target.Key() || rows[i].startsAt != rest[j].startsAt
    {
      var k := rest[j].target.Key();
      if rows[i].target.Key() == k && rows[i].startsAt == rest[j].startsAt {
        assert rows[i] in t.incidents;
        RowAtCurrentStartIsOpen(samples, k, rows[i]);
      }
    }
  }

  // ---- The log of a target in time order, and the row of it behind every incident

  ghost predicate InTimeOrder(log: seq<ProbeEvent>) {
    forall i, j :: 0 <= i <= j < |log| ==> log[i].changedAt <= log[j].changedAt
  }

  lemma {:induction false} CompressKeepsTimeOrder(xs: seq<Sample>)
    requires NonDecreasing(xs)
    ensures InTimeOrder(Compress(xs))
  {
    if xs != [] {
      var p := xs[..|xs| - 1];
      assert forall n :: 0 <= n < |p| ==> p[n] == xs[n];
      CompressKeepsTimeOrder(p);
      if p != [] {
        LastLogRow(p);
        assert xs[RunStart(p)].at <= xs[|xs| - 1].at;
      }
    }
  }

  ghost predicate IsRowOfLog(log: seq<ProbeEvent>, i: nat, span: Span) {
    && i < |log|
    && span == Span(log[i].status, log[i].changedAt, EndInLog(log, i))
  }

  /** Every incident recorded, and every incident shown, is a bad row of its target's log. */
  lemma EveryIncidentIsInTheLog(samples: seq<Sample>, now: int, cutoff: int, answer: seq<ProbeIncident>,
                                r: ProbeIncident)
    returns (i: nat)
    requires forall k :: NonDecreasing(SamplesOf(samples, k))
    requires IsProbeIncidentsAnswer(Run(samples), now, cutoff, answer)
    requires r in Run(samples).incidents || r in answer
    ensures IsRowOfLog(EventsOf(Run(samples).events, r.target.Key()), i, SpanOf(r))
    ensures InTimeOrder(EventsOf(Run(samples).events, r.target.Key()))
    ensures !IsOperational(r.status)
    ensures r.endsAt.Some? ==> Lasted(r.startsAt, r.endsAt.value)
  {
    var k, span := r.target.Key(), SpanOf(r);
    var t := Run(samples);
    var log, xs := EventsOf(t.events, k), SamplesOf(samples, k);
    LogIsRunLengthCompression(samples, k);
    CompressKeepsTimeOrder(xs);
    RowSpansMatchLog(samples, k, now, span);
    if r in answer {
      assert Shows(answer, k, span);
    }
    if span.endsAt.Some? {
      if r in answer {
        FinishedSpanShown(samples, now, cutoff, answer, k, span);
      }
      i :| IsLongBadRun(log, i, now, span);
    } else {
      if r in answer {
        OpenSpanShown(samples, now, cutoff, answer, k, span);
      }
      LastLogRow(xs);
      i := |log| - 1;
    }
  }
}
