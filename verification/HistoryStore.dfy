/**
  The history database as an object: its tables, updated in place, and the samples recorded so far. Every method of
  it is proved against the functions on the tables and the samples.
*/
module HistoryStore {
  import opened Common
  import opened ProbeStore
  import opened ProbeRuns
  import opened ProbeLog
  import opened ProbeQueries
  import opened Outages
  import opened Pagination
  import opened Availability
  import opened AvailabilityMetrics
  import opened AvailabilityQueries
  import Sorting

  class HistoryStore {
    var states: map<ProbeKey, ProbeState>
    var events: seq<ProbeEvent>
    var incidents: seq<ProbeIncident>
    /** Every sample recorded so far, oldest first. */
    ghost var history: seq<Sample>

    ghost function Contents(): Tables
      reads this
    {
      Tables(states, events, incidents)
    }

    /** The tables are what the recorded samples make of an empty database. */
    ghost predicate Valid()
      reads this
    {
      Contents() == Run(history)
    }

    constructor ()
      ensures Valid() && history == []
    {
      states, events, incidents := map[], [], [];
      history := [];
    }

    method InsertProbeIncident(target: ProbeTarget, status: string, message: string, startsAt: Instant, endsAt: Instant)
      modifies this`incidents
      ensures incidents == old(incidents) + [ProbeIncident(target, status, message, startsAt, NullableTime(endsAt))]
    {
      incidents := incidents + [ProbeIncident(target, status, message, startsAt, NullableTime(endsAt))];
    }

    method OpenProbeIncident(state: ProbeState)
      modifies this`incidents
      ensures incidents == OpenedIncidents(old(incidents), state)
      ensures old(incidents) <= incidents && HasOpenRow(incidents, state.target.Key(), state.since)
    {
      // INSERT OR IGNORE under the unique index on open rows
      if !HasOpenRow(incidents, state.target.Key(), state.since) {
        incidents := incidents + [IncidentOf(state, None)];
        assert IsOpenRowOf(incidents[|incidents| - 1], state.target.Key(), state.since);
      }
    }

    method CloseProbeStateIncident(state: ProbeState, now: Instant) returns (closed: bool)
      modifies this`incidents
      ensures incidents == ClosedIncidents(old(incidents), state, now)
      ensures closed <==> Lasted(state.since, now)
    {
      if now < state.since + PROBE_INCIDENT_THRESHOLD {
        return false;
      }
      if !state.promoted {
        InsertProbeIncident(state.target, state.status, state.message, state.since, now);
        return true;
      }
      var affected := HasOpenRow(incidents, state.target.Key(), state.since);
      var updated := WithRowsClosed(incidents, state.target.Key(), state.since, now);
      assert !affected ==> updated == incidents;
      incidents := updated;
      if affected {
        return true;
      }
      InsertProbeIncident(state.target, state.status, state.message, state.since, now);
      return true;
    }

    method RecordProbeStatusChanged(target: ProbeTarget, status: string, message: string, now: Instant)
      returns (changed: bool)
      requires Valid()
      modifies this
      ensures Valid() && history == old(history) + [Sample(target, status, message, now)]
      ensures Contents() == Recorded(old(Contents()), Sample(target, status, message, now))
      ensures changed <==> Contents() != old(Contents())
    {
      RunExtended(history, Sample(target, status, message, now));
      history := history + [Sample(target, status, message, now)];
      if target.kind == "" || target.id == "" || target.probeMethod == "" {
        return false;
      }
      var status := if status == "" then STATUS_OPERATIONAL else status;

      changed := false;
      var key := target.Key();
      if key !in states {
        states := states[key := ProbeState(target, status, message, now, now, false)];
        events := events + [ProbeEvent(target, status, message, now)];
        changed := true;
      } else if states[key].status != status {
        var state := states[key];
        if !IsOperational(state.status) {
          var closed := CloseProbeStateIncident(state, now);
          changed := closed || changed;
        }
        state := state.(target := target, status := status, message := message,
                        since := now, lastSeen := now, promoted := false);
        states := states[key := state];
        events := events + [ProbeEvent(target, status, message, now)];
        changed := true;
      } else if !IsOperational(status) && !states[key].promoted && now >= states[key].since + PROBE_INCIDENT_THRESHOLD {
        var state := states[key].(target := target, message := message, lastSeen := now);
        OpenProbeIncident(state);
        state := state.(promoted := true);
        states := states[key := state];
        changed := true;
        assert states[key].promoted != old(states)[key].promoted;
      }
    }

    /** `cutoff` is the first instant of the history window. */
    method ProbeIncidents(now: Instant, cutoff: int) returns (ret: seq<ProbeIncident>)
      requires Valid()
      ensures IsProbeIncidentsAnswer(Contents(), now, cutoff, ret)
      ensures (forall k :: NonDecreasing(SamplesOf(history, k))) ==>
                && EachOnce(ret)
                && (AnswersFromLog(events, now, cutoff, ret) <==> NowNotBehind(Contents(), now))
    {
      var rows := WindowRows(incidents, cutoff);
      ret := [];
      var openIncidents: set<(ProbeKey, Instant)> := {};
      for i := 0 to |rows|
        invariant ret == rows[..i]
        invariant forall k, s: Instant :: (k, s) in openIncidents <==> HasOpenRow(rows[..i], k, s)
      {
        assert rows[..i + 1] == rows[..i] + [rows[i]];
        OpenRowsOfExtended(rows[..i], rows[i]);
        if rows[i].endsAt.None? {
          openIncidents := openIncidents + {(rows[i].target.Key(), rows[i].startsAt)};
        }
        ret := ret + [rows[i]];
      }
      assert rows[..|rows|] == rows;

      RunIsKeyedByTarget(history);
      ghost var due := UnrecordedDueKeys(Contents(), now, cutoff);
      var remaining := set k | k in states && states[k].status != STATUS_OPERATIONAL;
      ghost var seen: set<ProbeKey> := {};
      ghost var rest: seq<ProbeIncident> := [];
      while remaining != {}
        invariant ret == rows + rest
        invariant forall k :: k in remaining ==> k in states
        invariant forall k :: k in due ==> k in seen || k in remaining
        invariant seen !! remaining && seen <= states.Keys
        invariant ListsOpenIncidents(rest, states, due * seen)
        decreases remaining
      {
        var k :| k in remaining;
        var state := states[k];
        remaining := remaining - {k};
        if IsOperational(state.status) || now < state.since + PROBE_INCIDENT_THRESHOLD {
          assert k !in due;
          assert due * (seen + {k}) == due * seen;
        } else if (state.target.Key(), state.since) in openIncidents {
          assert k !in due;
          assert due * (seen + {k}) == due * seen;
        } else {
          assert due * (seen + {k}) == due * seen + {k};
          rest := rest + [IncidentOf(state, None)];
          ret := ret + [ProbeIncident(state.target, state.status, state.message, state.since, None)];
        }
        seen := seen + {k};
      }
      assert due * seen == due;
      assert IsProbeIncidentsAnswer(Contents(), now, cutoff, ret);
      if forall k :: NonDecreasing(SamplesOf(history, k)) {
        ProbeIncidentsShowsEachOnce(history, now, cutoff, ret);
        ProbeIncidentsAnswerFromLog(history, now, cutoff, ret);
      }
    }

    /** One page of an entity's probe log. */
    method PaginatedEntityLog(kind: string, id: string, cutoff: int, requestedPage: int)
      returns (ret: ProbeLogPage<ProbeLogEvent>, page: int)
      requires Valid() && requestedPage <= MAX_INT64
      requires |EntityLog(events, kind, id, cutoff)| + PROBE_LOG_PAGE_SIZE - 1 <= MAX_INT64
      ensures var log := EntityLog(events, kind, id, cutoff);
              && ret.total == |log|
              && (log == [] ==> ret.events == [])
              && (log != [] ==>
                    && page == Min(NormalizeProbeLogPage(requestedPage), ProbeLogTotalPages(|log|))
                    && 1 <= page <= ProbeLogTotalPages(|log|)
                    && ret.events == PageRows(log, page))
    {
      var table := events;
      ret, page := PaginatedProbeLog(requestedPage,
                                     (limit, offset) => ProbeLogFor(table, kind, id, cutoff, limit, offset),
                                     EntityLog(table, kind, id, cutoff));
    }

    method ProbeEventsForAvailability(k: ProbeKey, start: int, end: int) returns (ret: seq<ProbeEvent>)
      ensures ret == if k.kind == "" || k.id == "" || k.probeMethod == "" || start >= end then []
                     else Fetched(TargetLog(events, k), start, end)
      ensures k.kind != "" && k.id != "" && k.probeMethod != "" && start < end ==> IsFetched(events, k, start, end, ret)
    {
      if k.kind == "" || k.id == "" || k.probeMethod == "" || start >= end {
        return [];
      }
      var log := TargetLog(events, k);
      ret := LastBefore(log, start);
      ret := ret + Sorting.Selected(Between(start, end), log);
      FetchedIsFetched(events, k, start, end);
    }

    /** For every entity the batched answer is the single-target one, whatever the other targets. */
    method ProbeEventsForAvailabilityTargets(targets: seq<HistoryKey>, start: int, end: int)
      returns (ret: map<HistoryKey, seq<ProbeEvent>>)
      ensures forall entity: HistoryKey :: ListFor(ret, entity) == FetchedFor(events, targets, entity, start, end)
    {
      ret := map[];
      if |targets| == 0 || start >= end {
        return;
      }
      var queryTargets := ProbeEventQueryTargets(targets, true);
      if |queryTargets| == 0 {
        forall entity: HistoryKey
          ensures FetchedFor(events, targets, entity, start, end) == []
        {
          var k := AvailabilityTarget(entity);
          if k.Some? {
            AvailabilityTargetCounts(entity, k.value);
            assert !IsTargetOfQuery(targets, true, k.value);
          }
        }
        return;
      }
      var previous, lists := GatherRows(BatchRows(events, queryTargets, end), start);
      ret := PrependPrevious(previous, lists);
      forall entity: HistoryKey
        ensures ListFor(ret, entity) == FetchedFor(events, targets, entity, start, end)
      {
        GatheredIsFetched(events, targets, queryTargets, start, end, previous, lists, entity);
      }
    }

    /** The probe half of an entity's availability: one metric a window, each as if computed from the whole log. */
    method EntityProbeAvailability(entity: HistoryKey, windows: seq<Interval>) returns (ret: seq<Option<real>>)
      ensures forall k :: IsCountingTarget(entity, k) ==>
                |ret| == |windows| && AreMetricsOf(ret, TargetLog(events, k), windows)
      ensures (forall k :: !IsCountingTarget(entity, k)) ==> forall i :: 0 <= i < |ret| ==> ret[i].None?
    {
      forall k
        ensures IsCountingTarget(entity, k) <==> AvailabilityTarget(entity) == Some(k)
      {
        AvailabilityTargetCounts(entity, k);
      }
      ret := [];
      if AvailabilityProbeMethod(entity.kind).None? {
        return;
      }
      var eventsByTarget: map<HistoryKey, seq<ProbeEvent>> := map[];
      var start, end := AvailabilityWindowBounds(windows);
      if |windows| > 0 {
        eventsByTarget := ProbeEventsForAvailabilityTargets([entity], start, end);
      }
      ret := ProbeMetrics(ListFor(eventsByTarget, entity), windows);
      if AvailabilityTarget(entity).Some? && |windows| > 0 {
        FetchedMetrics(events, entity, start, end, windows, ret);
      }
    }
  }

  /** The loop over the windows. */
  method ProbeMetrics(list: seq<ProbeEvent>, windows: seq<Interval>) returns (ret: seq<Option<real>>)
    ensures |ret| == |windows| && AreMetricsOf(ret, list, windows)
  {
    ret := [];
    for i := 0 to |windows|
      invariant |ret| == i && AreMetricsOf(ret, list, windows)
    {
      var metric := CalculateProbeAvailability(windows[i].start, windows[i].end, list);
      ret := ret + [metric];
    }
  }

  /** The metrics of the first windows, each computed from the whole log. */
  ghost predicate AreMetricsOf(ret: seq<Option<real>>, log: seq<ProbeEvent>, windows: seq<Interval>) {
    |ret| <= |windows| && forall i :: 0 <= i < |ret| ==> ret[i] == ProbeMetric(windows[i].start, windows[i].end, log)
  }

  lemma FetchedMetrics(events: seq<ProbeEvent>, entity: HistoryKey, start: int, end: int, windows: seq<Interval>,
                       ret: seq<Option<real>>)
    requires AvailabilityTarget(entity).Some? && forall w :: w in windows ==> start <= w.start && w.end <= end
    requires AreMetricsOf(ret, FetchedFor(events, [entity], entity, start, end), windows)
    ensures AreMetricsOf(ret, TargetLog(events, AvailabilityTarget(entity).value), windows)
  {
    forall i | 0 <= i < |ret|
      ensures ret[i] == ProbeMetric(windows[i].start, windows[i].end,
                                    TargetLog(events, AvailabilityTarget(entity).value))
    {
      TrimmingPreservesMeaning(events, AvailabilityTarget(entity).value, start, end, windows[i].start, windows[i].end);
    }
  }

  lemma OpenRowsOfExtended(rows: seq<ProbeIncident>, row: ProbeIncident)
    ensures forall k, s :: HasOpenRow(rows + [row], k, s) <==> HasOpenRow(rows, k, s) || IsOpenRowOf(row, k, s)
  {
    var all := rows + [row];
    forall k, s
      ensures HasOpenRow(all, k, s) <==> HasOpenRow(rows, k, s) || IsOpenRowOf(row, k, s)
    {
      if i :| 0 <= i < |rows| && IsOpenRowOf(rows[i], k, s) {
        assert IsOpenRowOf(all[i], k, s);
      }
      if IsOpenRowOf(row, k, s) {
        assert IsOpenRowOf(all[|rows|], k, s);
      }
    }
  }

}
