/** In every reachable history database the log replays to the samples, and open rows go with promoted states. */
module ProbeInvariants {
  import opened Common
  import opened ProbeStore
  import opened ProbeRuns
  import Sorting

  // ---- Replaying the log

  /** The status of the last event at or before t. */
  function Replay(events: seq<ProbeEvent>, t: int): Option<string> {
    if events == [] then None
    else
      var e := events[|events| - 1];
      if e.changedAt <= t then Some(e.status) else Replay(events[..|events| - 1], t)
  }

  /** The status of the last sample at or before t. */
  function SampledAt(xs: seq<Sample>, t: int): Option<string> {
    if xs == [] then None
    else
      var x := xs[|xs| - 1];
      if x.at <= t then Some(x.status) else SampledAt(xs[..|xs| - 1], t)
  }

  ghost predicate IsLastEventBy(events: seq<ProbeEvent>, i: nat, t: int) {
    && i < |events| && events[i].changedAt <= t
    && forall j :: i < j < |events| ==> events[j].changedAt > t
  }

  ghost predicate IsLastSampleBy(xs: seq<Sample>, i: nat, t: int) {
    i < |xs| && xs[i].at <= t && forall j :: i < j < |xs| ==> xs[j].at > t
  }

  lemma {:induction false} ReplayIsTheLastEvent(events: seq<ProbeEvent>, t: int)
    ensures Replay(events, t).None? <==> forall i :: 0 <= i < |events| ==> events[i].changedAt > t
    ensures forall i: nat :: IsLastEventBy(events, i, t) ==> Replay(events, t) == Some(events[i].status)
  {
    if events != [] && events[|events| - 1].changedAt > t {
      var p := events[..|events| - 1];
      ReplayIsTheLastEvent(p, t);
      assert forall i: nat :: IsLastEventBy(events, i, t) ==> IsLastEventBy(p, i, t);
    }
  }

  lemma {:induction false} SampledAtIsTheLastSample(xs: seq<Sample>, t: int)
    ensures SampledAt(xs, t).None? <==> forall i :: 0 <= i < |xs| ==> xs[i].at > t
    ensures forall i: nat :: IsLastSampleBy(xs, i, t) ==> SampledAt(xs, t) == Some(xs[i].status)
  {
    if xs != [] && xs[|xs| - 1].at > t {
      var p := xs[..|xs| - 1];
      SampledAtIsTheLastSample(p, t);
      assert forall i: nat :: IsLastSampleBy(xs, i, t) ==> IsLastSampleBy(p, i, t);
    }
  }

  lemma {:induction false} CompressionReplays(xs: seq<Sample>, t: int)
    requires NonDecreasing(xs)
    ensures Replay(Compress(xs), t) == SampledAt(xs, t)
  {
    if xs == [] {
    } else {
      var p := xs[..|xs| - 1];
      assert forall n :: 0 <= n < |p| ==> p[n] == xs[n];
      CompressionReplays(p, t);
      if RunStart(xs) == |xs| - 1 {
      } else {
      }
    }
  }

  lemma {:induction false} SampleIsSampled(xs: seq<Sample>, i: nat)
    requires NonDecreasing(xs) && i < |xs|
    requires i + 1 < |xs| ==> xs[i].at < xs[i + 1].at
    ensures SampledAt(xs, xs[i].at) == Some(xs[i].status)
  {
    if i + 1 < |xs| {
      var p := xs[..|xs| - 1];
      assert forall n :: 0 <= n < |p| ==> p[n] == xs[n];
      assert xs[i + 1].at <= xs[|xs| - 1].at;
      SampleIsSampled(p, i);
    }
  }

  ghost predicate AdjacentDiffer(events: seq<ProbeEvent>) {
    forall i :: 0 <= i < |events| - 1 ==> events[i].status != events[i + 1].status
  }

  lemma {:induction false} CompressionHasNoRepeats(xs: seq<Sample>)
    ensures AdjacentDiffer(Compress(xs))
  {
    if |xs| < 2 {
    } else {
      var p := xs[..|xs| - 1];
      CompressionHasNoRepeats(p);
      LastLogRow(p);
      if RunStart(xs) == |xs| - 1 {
        assert p[|p| - 1].status != xs[|xs| - 1].status;
      }
    }
  }

  /**
    The log of a target, replayed at any instant, gives the status last sampled by then; no two adjacent
    events repeat a status; the state row is the last event. In particular a sample that no later one
    shares its instant with is read back exactly.
  */
  lemma LogReplaysTheSamples(samples: seq<Sample>, k: ProbeKey)
    requires NonDecreasing(SamplesOf(samples, k))
    ensures var xs, log := SamplesOf(samples, k), EventsOf(Run(samples).events, k);
            && AdjacentDiffer(log)
            && (forall t: int :: Replay(log, t) == SampledAt(xs, t))
            && (forall i :: 0 <= i < |xs| && (i + 1 < |xs| ==> xs[i].at < xs[i + 1].at)
                  ==> Replay(log, xs[i].at) == Some(xs[i].status))
    ensures k in Run(samples).states <==> EventsOf(Run(samples).events, k) != []
    ensures k in Run(samples).states ==>
              var log := EventsOf(Run(samples).events, k);
              && log[|log| - 1].status == Run(samples).states[k].status
              && log[|log| - 1].changedAt == Run(samples).states[k].since
  {
    var xs, log := SamplesOf(samples, k), EventsOf(Run(samples).events, k);
    LogIsRunLengthCompression(samples, k);
    CompressionHasNoRepeats(xs);
    if xs != [] {
      LastLogRow(xs);
    }
    forall t: int
      ensures Replay(log, t) == SampledAt(xs, t)
    {
      CompressionReplays(xs, t);
    }
    forall i | 0 <= i < |xs| && (i + 1 < |xs| ==> xs[i].at < xs[i + 1].at)
      ensures Replay(log, xs[i].at) == Some(xs[i].status)
    {
      SampleIsSampled(xs, i);
    }
  }

  // ---- Open rows and promoted states

  function OpenRowOfTarget(k: ProbeKey): ProbeIncident -> bool {
    (row: ProbeIncident) => row.target.Key() == k && row.endsAt.None?
  }

  function OpenRowsOf(rows: seq<ProbeIncident>, k: ProbeKey): seq<ProbeIncident> {
    Sorting.Selected(OpenRowOfTarget(k), rows)
  }

  /**
    A target has an open incident row exactly if its state is promoted; then it has one, of the same
    status and since the same instant.
  */
  ghost predicate OpenRowIffPromoted(t: Tables, k: ProbeKey) {
    var open := OpenRowsOf(t.incidents, k);
    if k in t.states && t.states[k].promoted then
      && |open| == 1
      && open[0].startsAt == t.states[k].since
      && open[0].status == t.states[k].status
      && !IsOperational(t.states[k].status)
    else open == []
  }

  lemma OpenRowsOfAppend(rows: seq<ProbeIncident>, row: ProbeIncident, k: ProbeKey)
    ensures OpenRowsOf(rows + [row], k)
         == if row.target.Key() == k && row.endsAt.None? then OpenRowsOf(rows, k) + [row] else OpenRowsOf(rows, k)
  {
    Sorting.SelectedAppend(OpenRowOfTarget(k), rows, row);
  }

  lemma OpenRowsOfMembers(rows: seq<ProbeIncident>, k: ProbeKey)
    ensures forall x :: x in OpenRowsOf(rows, k) <==> x in rows && x.target.Key() == k && x.endsAt.None?
  {
    Sorting.SelectedMembers(OpenRowOfTarget(k), rows);
  }

  lemma {:induction false} OpenRowsOfClosed(rows: seq<ProbeIncident>, k0: ProbeKey, startsAt: Instant, end: Instant,
                                            k: ProbeKey)
    requires k == k0 ==> forall x :: x in OpenRowsOf(rows, k) ==> x.startsAt == startsAt
    ensures OpenRowsOf(WithRowsClosed(rows, k0, startsAt, end), k) == if k == k0 then [] else OpenRowsOf(rows, k)
  {
    if rows == [] {
    } else {
      var p, x := rows[1..], rows[0];
      var closed := WithRowsClosed(rows, k0, startsAt, end);
      assert closed[1..] == WithRowsClosed(p, k0, startsAt, end);
      if OpenRowOfTarget(k)(x) {
        assert OpenRowsOf(rows, k)[0] == x;
      }
      assert forall y :: y in OpenRowsOf(p, k) ==> y in OpenRowsOf(rows, k);
      OpenRowsOfClosed(p, k0, startsAt, end, k);
    }
  }

  lemma HasOpenRowIffListed(rows: seq<ProbeIncident>, k: ProbeKey, startsAt: Instant)
    ensures HasOpenRow(rows, k, startsAt) <==> exists x :: x in OpenRowsOf(rows, k) && x.startsAt == startsAt
  {
    OpenRowsOfMembers(rows, k);
    if x :| x in OpenRowsOf(rows, k) && x.startsAt == startsAt {
      var i :| 0 <= i < |rows| && rows[i] == x;
      assert IsOpenRowOf(rows[i], k, startsAt);
    }
  }

  lemma OthersOpenRowsUntouched(rows: seq<ProbeIncident>, state: ProbeState, at: Instant, k: ProbeKey)
    requires state.target.Key() != k
    ensures OpenRowsOf(ClosedIncidents(rows, state, at), k) == OpenRowsOf(rows, k)
    ensures OpenRowsOf(OpenedIncidents(rows, state), k) == OpenRowsOf(rows, k)
  {
    OpenRowsOfClosed(rows, state.target.Key(), state.since, at, k);
    OpenRowsOfAppend(rows, IncidentOf(state, NullableTime(at)), k);
    OpenRowsOfAppend(rows, IncidentOf(state, None), k);
  }

  lemma OwnOpenRowsAfterClose(rows: seq<ProbeIncident>, state: ProbeState, at: Instant)
    requires var open := OpenRowsOf(rows, state.target.Key());
             if state.promoted then |open| == 1 && open[0].startsAt == state.since else open == []
    ensures OpenRowsOf(ClosedIncidents(rows, state, at), state.target.Key())
         == if Lasted(state.since, at) then [] else OpenRowsOf(rows, state.target.Key())
    ensures state.promoted ==> HasOpenRow(rows, state.target.Key(), state.since)
  {
    var k := state.target.Key();
    HasOpenRowIffListed(rows, k, state.since);
    OpenRowsOfAppend(rows, IncidentOf(state, NullableTime(at)), k);
    if state.promoted {
      assert OpenRowsOf(rows, k)[0] in OpenRowsOf(rows, k);
    }
    OpenRowsOfClosed(rows, k, state.since, at, k);
  }

  lemma OwnOpenRowsAfterPromotion(rows: seq<ProbeIncident>, state: ProbeState)
    requires OpenRowsOf(rows, state.target.Key()) == []
    ensures !HasOpenRow(rows, state.target.Key(), state.since)
    ensures OpenRowsOf(OpenedIncidents(rows, state), state.target.Key()) == [IncidentOf(state, None)]
  {
    HasOpenRowIffListed(rows, state.target.Key(), state.since);
    OpenRowsOfAppend(rows, IncidentOf(state, None), state.target.Key());
  }

  /**
    The two ways to write an incident come to one row: opened at the promotion and closed later, or inserted
    already closed.
  */
  lemma PromoteThenCloseIsInsertClosed(rows: seq<ProbeIncident>, state: ProbeState, now: Instant)
    requires !HasOpenRow(rows, state.target.Key(), state.since) && Lasted(state.since, now)
    ensures ClosedIncidents(OpenedIncidents(rows, state), state.(promoted := true), now)
         == ClosedIncidents(rows, state.(promoted := false), now)
         == rows + [IncidentOf(state, Some(now))]
  {
    var k, after := state.target.Key(), OpenedIncidents(rows, state);
    assert IsOpenRowOf(after[|rows|], k, state.since);
    assert forall i :: 0 <= i < |rows| ==> after[i] == rows[i] && !IsOpenRowOf(rows[i], k, state.since);
  }

  /**
    Every sample, at whatever instant, keeps the invariant unless it takes the stranding transition, and then
    it breaks it.
  */
  lemma SampleKeepsOpenRowIffPromoted(t: Tables, s: Sample, k: ProbeKey)
    requires KeyedByTarget(t) && OpenRowIffPromoted(t, k)
    ensures OpenRowIffPromoted(Recorded(t, s), k) <==> !StrandsOpenRow(t, s, k)
  {
    var u := Recorded(t, s);
    if s.Recordable() {
      var x := s.Normalized();
      var k0 := x.target.Key();
      if k0 in t.states {
        var state := t.states[k0];
        if k0 != k {
          OthersOpenRowsUntouched(t.incidents, state, x.at, k);
          OthersOpenRowsUntouched(t.incidents, PromotionState(state, x), x.at, k);
        } else if state.status != x.status {
          OwnOpenRowsAfterClose(t.incidents, state, x.at);
        } else if Promotes(state, x) {
          OwnOpenRowsAfterPromotion(t.incidents, PromotionState(state, x));
        }
      }
    }
  }

  /**
    On a table where the invariant holds, INSERT OR IGNORE inserts, and a promoted close never falls back to
    inserting.
  */
  lemma NoRowIsDroppedOrInsertedTwice(t: Tables, s: Sample, k: ProbeKey)
    requires KeyedByTarget(t) && OpenRowIffPromoted(t, k) && s.Concerns(k) && k in t.states
    ensures Promotes(t.states[k], s.Normalized()) ==> !HasOpenRow(t.incidents, k, t.states[k].since)
    ensures t.states[k].promoted ==> HasOpenRow(t.incidents, k, t.states[k].since)
  {
    var state := t.states[k];
    OwnOpenRowsAfterClose(t.incidents, state, s.at);
    if Promotes(state, s.Normalized()) {
      OwnOpenRowsAfterPromotion(t.incidents, state);
    }
  }

  /** The invariant holds after every prefix of the run. */
  ghost predicate HoldsThroughout(samples: seq<Sample>, k: ProbeKey) {
    && OpenRowIffPromoted(Run(samples), k)
    && (samples != [] ==> HoldsThroughout(samples[..|samples| - 1], k))
  }

  /**
    Over a whole run with arbitrary clock readings, the invariant holds after every prefix exactly if no
    sample strands an open row.
  */
  lemma {:induction false} InvariantHoldsExactlyWithoutStranding(samples: seq<Sample>, k: ProbeKey)
    ensures HoldsThroughout(samples, k) <==> NeverStrands(samples, k)
  {
    if samples == [] {
    } else {
      var p, s := samples[..|samples| - 1], samples[|samples| - 1];
      InvariantHoldsExactlyWithoutStranding(p, k);
      RunIsKeyedByTarget(p);
      if HoldsThroughout(p, k) {
        SampleKeepsOpenRowIffPromoted(Run(p), s, k);
      }
    }
  }

  /** A promoted state was promoted by a recorded sample, at least the threshold after its run began. */
  lemma PromotionWasSampled(samples: seq<Sample>, k: ProbeKey)
    requires k in Run(samples).states && Run(samples).states[k].promoted
    ensures exists x :: x in SamplesOf(samples, k) && x.status == Run(samples).states[k].status
                        && Lasted(Run(samples).states[k].since, x.at)
  {
  }

  /** A target whose clock never runs back keeps the invariant at every point of every run. */
  lemma InvariantOfEveryRun(samples: seq<Sample>, k: ProbeKey)
    requires NonDecreasing(SamplesOf(samples, k))
    ensures HoldsThroughout(samples, k)
  {
    NeverStrandsInOrder(samples, k);
    InvariantHoldsExactlyWithoutStranding(samples, k);
  }

  /** Down at 1000, promoted at 1300, and recovered by a clock that was set back to 1200. */
  const CLOCK_SET_BACK := FAILED_TWICE + [Sample(FAILING, "ok", "", 1200)]

  /**
    A clock set back between promotion and recovery leaves an open row that no state refers to and no run
    deserves.
  */
  lemma ClockSetBackStrandsARow()
    ensures CLOCK_SET_BACK
         == [Sample(FAILING, "down", "", 1000), Sample(FAILING, "down", "", 1300), Sample(FAILING, "ok", "", 1200)]
    ensures var t, k, row := Run(CLOCK_SET_BACK), FAILING.Key(), ProbeIncident(FAILING, "down", "", 1000, None);
            && k in t.states && t.states[k].status == "ok" && t.states[k].since == 1200 && !t.states[k].promoted
            && OpenRowsOf(t.incidents, k) == [row]
            && !OpenRowIffPromoted(t, k)
            && !IsRowOfLongRun(SamplesOf(CLOCK_SET_BACK, k), row)
  {
    var c, k := Sample(FAILING, "ok", "", 1200), FAILING.Key();
    FailedTwiceIsPromoted();
    RunExtended(FAILED_TWICE, c);
    assert CLOCK_SET_BACK[..2] == FAILED_TWICE;
    assert StrandsOpenRow(Run(FAILED_TWICE), c, k);
    var row := StrandedRowIsNoRun(CLOCK_SET_BACK, k);
    OpenRowsOfAppend([], row, k);
    assert [] + [row] == [row];
  }
}
