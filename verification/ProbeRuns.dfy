/** What a run of samples means: its maximal runs of one status, the log they compress to, and its incidents. */
module ProbeRuns {
  import opened Common
  import opened ProbeStore
  import Sorting

  // ---- The part of a run, and of each table, that belongs to one target

  function SamplesOf(samples: seq<Sample>, k: ProbeKey): seq<Sample> {
    if samples == [] then []
    else
      var x := samples[|samples| - 1];
      var rest := SamplesOf(samples[..|samples| - 1], k);
      if x.Concerns(k) then rest + [x.Normalized()] else rest
  }

  function EventOfTarget(k: ProbeKey): ProbeEvent -> bool {
    (e: ProbeEvent) => e.target.Key() == k
  }

  function EventsOf(events: seq<ProbeEvent>, k: ProbeKey): seq<ProbeEvent> {
    Sorting.Selected(EventOfTarget(k), events)
  }

  function RowOfTarget(k: ProbeKey): ProbeIncident -> bool {
    (row: ProbeIncident) => row.target.Key() == k
  }

  function RowsOf(rows: seq<ProbeIncident>, k: ProbeKey): seq<ProbeIncident> {
    Sorting.Selected(RowOfTarget(k), rows)
  }

  lemma RowsOfMembers(rows: seq<ProbeIncident>, k: ProbeKey)
    ensures forall x :: x in RowsOf(rows, k) <==> x in rows && x.target.Key() == k
  {
    Sorting.SelectedMembers(RowOfTarget(k), rows);
  }

  lemma {:induction false} SamplesOfMembers(samples: seq<Sample>, k: ProbeKey)
    ensures forall x :: x in SamplesOf(samples, k) ==> x.Concerns(k) && x.status != ""
  {
    if samples == [] {
    } else {
      SamplesOfMembers(samples[..|samples| - 1], k);
    }
  }

  lemma OnlyNamedTargetsAreSampled(samples: seq<Sample>, k: ProbeKey)
    requires SamplesOf(samples, k) != []
    ensures k.kind != "" && k.id != ""
  {
    SamplesOfMembers(samples, k);
    assert SamplesOf(samples, k)[0] in SamplesOf(samples, k);
  }

  ghost predicate NonDecreasing(xs: seq<Sample>) {
    forall i, j :: 0 <= i <= j < |xs| ==> xs[i].at <= xs[j].at
  }

  // ---- Maximal runs, declaratively

  /** Samples i up to j share one status, and neither neighbour continues the run. */
  ghost predicate MaximalRun(xs: seq<Sample>, i: nat, j: nat) {
    && i < j <= |xs|
    && (forall m :: i <= m < j ==> xs[m].status == xs[i].status)
    && (i > 0 ==> xs[i - 1].status != xs[i].status)
    && (j < |xs| ==> xs[j].status != xs[i].status)
  }

  /** Sample m is the first of the run, after its first sample, to come at least the threshold later. */
  ghost predicate PromotedAt(xs: seq<Sample>, i: nat, j: nat, m: nat) {
    && i < m < j <= |xs|
    && IsBad(xs[i].status)
    && xs[m].at >= xs[i].at + PROBE_INCIDENT_THRESHOLD
    && forall n :: i < n < m ==> xs[n].at < xs[i].at + PROBE_INCIDENT_THRESHOLD
  }

  ghost predicate NeverPromoted(xs: seq<Sample>, i: nat, j: nat) {
    && i < j <= |xs|
    && (IsBad(xs[i].status) ==> forall n :: i < n < j ==> xs[n].at < xs[i].at + PROBE_INCIDENT_THRESHOLD)
  }

  /** The sample from which an incident of run [i, j) takes its label and message. */
  ghost predicate DescribedBy(xs: seq<Sample>, i: nat, j: nat, m: nat) {
    || PromotedAt(xs, i, j, m)
    || (m == i && NeverPromoted(xs, i, j))
  }

  /** The row that the maximal run [i, j) deserves: closed by the sample that ended it, or open and promoted. */
  ghost predicate IsIncidentOfRun(xs: seq<Sample>, i: nat, j: nat, m: nat, row: ProbeIncident) {
    && MaximalRun(xs, i, j)
    && IsBad(xs[i].status)
    && m < j
    && DescribedBy(xs, i, j, m)
    && (if j < |xs| then xs[j].at >= xs[i].at + PROBE_INCIDENT_THRESHOLD else PromotedAt(xs, i, j, m))
    && row == ProbeIncident(xs[m].target, xs[i].status, xs[m].message, xs[i].at,
                            if j < |xs| then Some(xs[j].at) else None)
  }

  ghost predicate IsRowOfLongRun(xs: seq<Sample>, row: ProbeIncident) {
    exists i: nat, j: nat, m: nat :: IsIncidentOfRun(xs, i, j, m, row)
  }

  // ---- The same, computed sample by sample

  function RunStart(xs: seq<Sample>): (c: nat)
    requires xs != []
    ensures c < |xs|
    ensures MaximalRun(xs, c, |xs|)
  {
    if |xs| >= 2 && xs[|xs| - 2].status == xs[|xs| - 1].status then RunStart(xs[..|xs| - 1]) else |xs| - 1
  }

  function Promotion(xs: seq<Sample>): (p: Option<nat>)
    requires xs != []
    ensures p.Some? ==> PromotedAt(xs, RunStart(xs), |xs|, p.value)
    ensures p.None? ==> NeverPromoted(xs, RunStart(xs), |xs|)
  {
    var c := RunStart(xs);
    if c == |xs| - 1 then None
    else
      var p := xs[..|xs| - 1];
      var before := Promotion(p);
      assert forall n :: 0 <= n < |p| ==> p[n] == xs[n];
      assert RunStart(p) == c;
      if before.Some? then before
      else if !IsOperational(xs[c].status) && Lasted(xs[c].at, xs[|xs| - 1].at) then Some(|xs| - 1)
      else None
  }

  function Describer(xs: seq<Sample>): (m: nat)
    requires xs != []
    ensures m < |xs| && DescribedBy(xs, RunStart(xs), |xs|, m)
  {
    if Promotion(xs).Some? then Promotion(xs).value else RunStart(xs)
  }

  function StateOf(xs: seq<Sample>): ProbeState
    requires xs != []
  {
    var c, m := RunStart(xs), Describer(xs);
    ProbeState(xs[m].target, xs[c].status, xs[m].message, xs[c].at, xs[m].at, Promotion(xs).Some?)
  }

  /** Run-length compression: the first sample of every run. */
  function Compress(xs: seq<Sample>): seq<ProbeEvent> {
    if xs == [] then []
    else
      var rest := Compress(xs[..|xs| - 1]);
      if RunStart(xs) == |xs| - 1 then rest + [EventOf(xs[|xs| - 1])] else rest
  }

  /** The log row that the current run was opened with. */
  lemma {:induction false} LastLogRow(xs: seq<Sample>)
    requires xs != []
    ensures Compress(xs) != []
    ensures var last := Compress(xs)[|Compress(xs)| - 1];
            && last.status == StateOf(xs).status == xs[|xs| - 1].status
            && last.changedAt == StateOf(xs).since
  {
    if RunStart(xs) != |xs| - 1 {
      LastLogRow(xs[..|xs| - 1]);
    }
  }

  function FinishedRows(xs: seq<Sample>): (rows: seq<ProbeIncident>)
    ensures forall r :: r in rows ==> r.endsAt.Some?
  {
    if |xs| < 2 then []
    else
      var p, x := xs[..|xs| - 1], xs[|xs| - 1];
      if x.status != p[|p| - 1].status && !IsOperational(p[|p| - 1].status) && Lasted(StateOf(p).since, x.at)
      then FinishedRows(p) + [IncidentOf(StateOf(p), Some(x.at))]
      else FinishedRows(p)
  }

  function IncidentRows(xs: seq<Sample>): seq<ProbeIncident> {
    if xs != [] && Promotion(xs).Some? then FinishedRows(xs) + [IncidentOf(StateOf(xs), None)] else FinishedRows(xs)
  }

  // ---- A sample leaves other targets alone, and extends its own target's part

  lemma EventsOfAppend(events: seq<ProbeEvent>, e: ProbeEvent, k: ProbeKey)
    ensures EventsOf(events + [e], k) == if e.target.Key() == k then EventsOf(events, k) + [e] else EventsOf(events, k)
  {
    Sorting.SelectedAppend(EventOfTarget(k), events, e);
  }

  lemma RowsOfAppend(rows: seq<ProbeIncident>, row: ProbeIncident, k: ProbeKey)
    ensures RowsOf(rows + [row], k) == if row.target.Key() == k then RowsOf(rows, k) + [row] else RowsOf(rows, k)
  {
    Sorting.SelectedAppend(RowOfTarget(k), rows, row);
  }

  lemma {:induction false} RowsOfClosed(rows: seq<ProbeIncident>, k0: ProbeKey, startsAt: Instant, end: Instant,
                                        k: ProbeKey)
    ensures RowsOf(WithRowsClosed(rows, k0, startsAt, end), k)
         == if k == k0 then WithRowsClosed(RowsOf(rows, k), k0, startsAt, end) else RowsOf(rows, k)
  {
    if rows == [] {
    } else {
      var closed := WithRowsClosed(rows, k0, startsAt, end);
      assert closed[1..] == WithRowsClosed(rows[1..], k0, startsAt, end);
      assert closed[0].target == rows[0].target;
      RowsOfClosed(rows[1..], k0, startsAt, end, k);
      if k == k0 && RowOfTarget(k)(rows[0]) {
        var own := RowsOf(rows, k);
        assert WithRowsClosed(own, k0, startsAt, end)
            == [closed[0]] + WithRowsClosed(RowsOf(rows[1..], k), k0, startsAt, end);
      }
    }
  }

  lemma HasOpenRowOfKey(rows: seq<ProbeIncident>, k: ProbeKey, startsAt: Instant)
    ensures HasOpenRow(rows, k, startsAt) <==> HasOpenRow(RowsOf(rows, k), k, startsAt)
  {
    var own := RowsOf(rows, k);
    RowsOfMembers(rows, k);
    if i :| 0 <= i < |rows| && IsOpenRowOf(rows[i], k, startsAt) {
      assert rows[i] in own;
    }
    if i :| 0 <= i < |own| && IsOpenRowOf(own[i], k, startsAt) {
      assert own[i] in rows;
    }
  }

  lemma OthersIncidentsUntouched(rows: seq<ProbeIncident>, state: ProbeState, at: Instant, k: ProbeKey)
    requires state.target.Key() != k
    ensures RowsOf(ClosedIncidents(rows, state, at), k) == RowsOf(rows, k)
    ensures RowsOf(OpenedIncidents(rows, state), k) == RowsOf(rows, k)
  {
    RowsOfClosed(rows, state.target.Key(), state.since, at, k);
    RowsOfAppend(rows, IncidentOf(state, NullableTime(at)), k);
    RowsOfAppend(rows, IncidentOf(state, None), k);
  }

  lemma OtherTargetsUntouched(t: Tables, s: Sample, k: ProbeKey)
    requires KeyedByTarget(t) && !s.Concerns(k)
    ensures var u := Recorded(t, s);
            && (k in u.states <==> k in t.states)
            && (k in t.states ==> u.states[k] == t.states[k])
            && EventsOf(u.events, k) == EventsOf(t.events, k)
            && RowsOf(u.incidents, k) == RowsOf(t.incidents, k)
  {
    if s.Recordable() {
      var x := s.Normalized();
      var k0 := x.target.Key();
      EventsOfAppend(t.events, EventOf(x), k);
      if k0 in t.states {
        OthersIncidentsUntouched(t.incidents, t.states[k0], x.at, k);
        OthersIncidentsUntouched(t.incidents, PromotionState(t.states[k0], x), x.at, k);
      }
    }
  }

  /** The state row is the current run, and the log is the run-length compression of the samples. */
  lemma {:induction false} LogIsRunLengthCompression(samples: seq<Sample>, k: ProbeKey)
    ensures k in Run(samples).states <==> SamplesOf(samples, k) != []
    ensures k in Run(samples).states ==> Run(samples).states[k] == StateOf(SamplesOf(samples, k))
    ensures EventsOf(Run(samples).events, k) == Compress(SamplesOf(samples, k))
  {
    if samples == [] {
    } else {
      var p, s := samples[..|samples| - 1], samples[|samples| - 1];
      LogIsRunLengthCompression(p, k);
      RunIsKeyedByTarget(p);
      if s.Concerns(k) {
        LogAfterSample(Run(p), s, SamplesOf(p, k));
      } else {
        OtherTargetsUntouched(Run(p), s, k);
      }
    }
  }

  lemma LogAfterSample(t: Tables, s: Sample, ys: seq<Sample>)
    requires s.Recordable()
    requires s.target.Key() in t.states <==> ys != []
    requires ys != [] ==> t.states[s.target.Key()] == StateOf(ys)
    requires EventsOf(t.events, s.target.Key()) == Compress(ys)
    ensures var k, u, xs := s.target.Key(), Recorded(t, s), ys + [s.Normalized()];
            && k in u.states
            && u.states[k] == StateOf(xs)
            && EventsOf(u.events, k) == Compress(xs)
  {
    var x := s.Normalized();
    var xs := ys + [x];
    assert xs[..|xs| - 1] == ys;
    EventsOfAppend(t.events, EventOf(x), s.target.Key());
    if ys != [] {
    }
  }

  /** The incident rows are those of the finished long runs, then the open one of a promoted current run. */
  lemma {:induction false} IncidentTableHoldsLongRuns(samples: seq<Sample>, k: ProbeKey)
    requires NeverStrands(samples, k)
    ensures RowsOf(Run(samples).incidents, k) == IncidentRows(SamplesOf(samples, k))
  {
    if samples == [] {
    } else {
      var p, s := samples[..|samples| - 1], samples[|samples| - 1];
      RunIsKeyedByTarget(p);
      IncidentTableHoldsLongRuns(p, k);
      if s.Concerns(k) {
        LogIsRunLengthCompression(p, k);
        SamplesOfMembers(p, k);
        RowsAfterSample(Run(p), s, SamplesOf(p, k));
      } else {
        OtherTargetsUntouched(Run(p), s, k);
      }
    }
  }

  lemma RowsAfterSample(t: Tables, s: Sample, ys: seq<Sample>)
    requires s.Recordable() && !StrandsOpenRow(t, s, s.target.Key())
    requires forall y :: y in ys ==> y.Concerns(s.target.Key())
    requires s.target.Key() in t.states <==> ys != []
    requires ys != [] ==> t.states[s.target.Key()] == StateOf(ys)
    requires RowsOf(t.incidents, s.target.Key()) == IncidentRows(ys)
    ensures RowsOf(Recorded(t, s).incidents, s.target.Key()) == IncidentRows(ys + [s.Normalized()])
  {
    var x := s.Normalized();
    var xs := ys + [x];
    assert xs[..|xs| - 1] == ys;
    if ys != [] {
      assert StateOf(ys).status == ys[|ys| - 1].status;
      assert ys[Describer(ys)] in ys;
      if x.status == StateOf(ys).status {
        RowsAfterSameStatus(t.incidents, ys, x);
      } else {
        RowsAfterNewStatus(t.incidents, ys, x);
      }
    }
  }

  lemma StateAfterSameStatus(ys: seq<Sample>, x: Sample)
    requires ys != [] && x.status == ys[|ys| - 1].status
    ensures var state := StateOf(ys);
            StateOf(ys + [x]) == if Promotes(state, x) then PromotionState(state, x).(promoted := true) else state
    ensures Promotion(ys + [x]).Some? <==> Promotes(StateOf(ys), x) || Promotion(ys).Some?
  {
    assert (ys + [x])[..|ys|] == ys;
  }

  lemma RowsAfterSameStatus(rows: seq<ProbeIncident>, ys: seq<Sample>, x: Sample)
    requires ys != [] && x.status == ys[|ys| - 1].status
    requires StateOf(ys).target.Key() == x.target.Key()
    requires RowsOf(rows, x.target.Key()) == IncidentRows(ys)
    ensures var state := StateOf(ys);
            RowsOf(if Promotes(state, x) then OpenedIncidents(rows, PromotionState(state, x)) else rows, x.target.Key())
            == IncidentRows(ys + [x])
  {
    var xs, k, state := ys + [x], x.target.Key(), StateOf(ys);
    assert xs[..|xs| - 1] == ys;
    assert FinishedRows(xs) == FinishedRows(ys);
    StateAfterSameStatus(ys, x);
    if Promotes(state, x) {
      CloseCurrentRow(ys, x.at);
      HasOpenRowOfKey(rows, k, state.since);
      RowsOfAppend(rows, IncidentOf(PromotionState(state, x), None), k);
      assert IncidentRows(ys) == FinishedRows(ys);
    }
  }

  lemma RowsAfterNewStatus(rows: seq<ProbeIncident>, ys: seq<Sample>, x: Sample)
    requires ys != [] && x.status != ys[|ys| - 1].status
    requires StateOf(ys).promoted ==> Lasted(StateOf(ys).since, x.at)
    requires StateOf(ys).target.Key() == x.target.Key()
    requires RowsOf(rows, x.target.Key()) == IncidentRows(ys)
    ensures var state := StateOf(ys);
            RowsOf(if IsOperational(state.status) then rows else ClosedIncidents(rows, state, x.at), x.target.Key())
            == IncidentRows(ys + [x])
  {
    var xs, k, state := ys + [x], x.target.Key(), StateOf(ys);
    assert xs[..|xs| - 1] == ys;
    assert Promotion(xs).None?;
    HasOpenRowOfKey(rows, k, state.since);
    RowsOfAppend(rows, IncidentOf(state, NullableTime(x.at)), k);
    RowsOfClosed(rows, k, state.since, x.at, k);
    CloseCurrentRow(ys, x.at);
  }

  /** Closing the current run finds its open row exactly if it was promoted, and touches no other. */
  lemma CloseCurrentRow(ys: seq<Sample>, end: Instant)
    requires ys != []
    ensures var k, state := StateOf(ys).target.Key(), StateOf(ys);
            && HasOpenRow(IncidentRows(ys), k, state.since) == state.promoted
            && WithRowsClosed(IncidentRows(ys), k, state.since, end)
               == if state.promoted then FinishedRows(ys) + [IncidentOf(state, Some(end))] else FinishedRows(ys)
  {
    var rows, done, state := IncidentRows(ys), FinishedRows(ys), StateOf(ys);
    if state.promoted {
      assert IsOpenRowOf(rows[|done|], state.target.Key(), state.since);
    }
    assert forall i :: 0 <= i < |done| ==> done[i] in done && rows[i] == done[i];
  }

  // ---- The computed rows are exactly the rows that the maximal runs deserve

  lemma RunSurvivesExtension(xs: seq<Sample>, i: nat, j: nat, m: nat, row: ProbeIncident)
    requires xs != [] && j < |xs| - 1
    ensures IsIncidentOfRun(xs[..|xs| - 1], i, j, m, row) <==> IsIncidentOfRun(xs, i, j, m, row)
  {
  }

  lemma {:induction false} FinishedRowIsRun(xs: seq<Sample>, row: ProbeIncident) returns (i: nat, j: nat, m: nat)
    requires row in FinishedRows(xs)
    ensures j < |xs| && IsIncidentOfRun(xs, i, j, m, row)
  {
    var p, x := xs[..|xs| - 1], xs[|xs| - 1];
    if row in FinishedRows(p) {
      i, j, m := FinishedRowIsRun(p, row);
      RunSurvivesExtension(xs, i, j, m, row);
    } else {
      i, j, m := RunStart(p), |p|, Describer(p);
    }
  }

  lemma {:induction false} RunIsFinishedRow(xs: seq<Sample>, i: nat, j: nat, m: nat, row: ProbeIncident)
    requires j < |xs| && IsIncidentOfRun(xs, i, j, m, row)
    ensures row in FinishedRows(xs)
  {
    var p, x := xs[..|xs| - 1], xs[|xs| - 1];
    if j < |p| {
      RunSurvivesExtension(xs, i, j, m, row);
      RunIsFinishedRow(p, i, j, m, row);
    } else {
      assert forall n :: 0 <= n < |p| ==> p[n] == xs[n];
      assert MaximalRun(p, i, |p|);
      assert PromotedAt(xs, i, j, m) ==> PromotedAt(p, i, j, m);
      assert NeverPromoted(xs, i, j) ==> NeverPromoted(p, i, j);
      assert row == IncidentOf(StateOf(p), Some(x.at));
    }
  }

  lemma RowsAreRuns(xs: seq<Sample>, row: ProbeIncident)
    ensures row in IncidentRows(xs) <==> IsRowOfLongRun(xs, row)
  {
    if row in FinishedRows(xs) {
      var i, j, m := FinishedRowIsRun(xs, row);
    } else if row in IncidentRows(xs) {
      assert IsIncidentOfRun(xs, RunStart(xs), |xs|, Describer(xs), row);
    }
    if IsRowOfLongRun(xs, row) {
      var i: nat, j: nat, m: nat :| IsIncidentOfRun(xs, i, j, m, row);
      if j < |xs| {
        RunIsFinishedRow(xs, i, j, m, row);
      } else {
      }
    }
  }

  ghost predicate SpacedByThreshold(rows: seq<ProbeIncident>) {
    forall a, b :: 0 <= a < b < |rows| ==> Lasted(rows[a].startsAt, rows[b].startsAt)
  }

  lemma {:induction false} FinishedRowsAreSpaced(xs: seq<Sample>)
    requires NonDecreasing(xs)
    ensures SpacedByThreshold(FinishedRows(xs))
    ensures xs != [] ==> forall r :: r in FinishedRows(xs) ==> Lasted(r.startsAt, xs[RunStart(xs)].at)
  {
    if |xs| >= 2 {
      var p := xs[..|xs| - 1];
      assert forall n :: 0 <= n < |p| ==> p[n] == xs[n];
      FinishedRowsAreSpaced(p);
    }
  }

  lemma {:induction false} OwnRowsKeepOrder(rows: seq<ProbeIncident>, k: ProbeKey, a: nat, b: nat)
    requires a < b < |rows| && rows[a].target.Key() == k && rows[b].target.Key() == k
    requires SpacedByThreshold(RowsOf(rows, k))
    ensures Lasted(rows[a].startsAt, rows[b].startsAt)
  {
    var p, own := rows[..|rows| - 1], RowsOf(rows, k);
    assert rows == p + [rows[|p|]];
    RowsOfAppend(p, rows[|p|], k);
    if b < |p| {
      assert forall i, j :: 0 <= i < j < |RowsOf(p, k)| ==> RowsOf(p, k)[i] == own[i] && RowsOf(p, k)[j] == own[j];
      OwnRowsKeepOrder(p, k, a, b);
    } else {
      RowsOfMembers(p, k);
      assert p[a] in p;
      var i :| 0 <= i < |RowsOf(p, k)| && RowsOf(p, k)[i] == p[a];
      assert own[i] == p[a] && own[|own| - 1] == rows[b];
    }
  }

  // ---- Exactly when the table holds the rows of the long runs

  /** A row of the target is in the table exactly if a long run of its samples deserves it. */
  ghost predicate RowsMatchRuns(samples: seq<Sample>, k: ProbeKey) {
    forall row :: row in Run(samples).incidents && row.target.Key() == k
                  <==> IsRowOfLongRun(SamplesOf(samples, k), row)
  }

  /** That holds after every prefix of the run. */
  ghost predicate RowsMatchThroughout(samples: seq<Sample>, k: ProbeKey) {
    && RowsMatchRuns(samples, k)
    && (samples != [] ==> RowsMatchThroughout(samples[..|samples| - 1], k))
  }

  lemma RowsMatchWithoutStranding(samples: seq<Sample>, k: ProbeKey)
    requires NeverStrands(samples, k)
    ensures RowsMatchRuns(samples, k)
  {
    var xs, rows := SamplesOf(samples, k), Run(samples).incidents;
    IncidentTableHoldsLongRuns(samples, k);
    RowsOfMembers(rows, k);
    forall row
      ensures row in IncidentRows(xs) <==> IsRowOfLongRun(xs, row)
    {
      RowsAreRuns(xs, row);
    }
  }

  /** The first sample that strands an open row leaves it in the table, and no run deserves it any more. */
  lemma StrandedRowIsNoRun(samples: seq<Sample>, k: ProbeKey) returns (row: ProbeIncident)
    requires samples != []
    requires var p, s := samples[..|samples| - 1], samples[|samples| - 1];
             NeverStrands(p, k) && StrandsOpenRow(Run(p), s, k)
    ensures var state := Run(samples[..|samples| - 1]).states[k];
            row == ProbeIncident(state.target, state.status, state.message, state.since, None)
    ensures row in Run(samples).incidents && row.target.Key() == k
    ensures !IsRowOfLongRun(SamplesOf(samples, k), row)
  {
    var p, s := samples[..|samples| - 1], samples[|samples| - 1];
    var xs, ys := SamplesOf(samples, k), SamplesOf(p, k);
    row := IncidentOf(Run(p).states[k], None);
    LogIsRunLengthCompression(p, k);
    IncidentTableHoldsLongRuns(p, k);
    RowsOfMembers(Run(p).incidents, k);
    assert row in IncidentRows(ys);
    assert xs[..|xs| - 1] == ys;
    assert Promotion(xs).None?;
    RowsAreRuns(xs, row);
  }

  /**
    Over a whole run with arbitrary clock readings, the incident rows of a target are after every prefix exactly
    those of its long runs, if and only if no sample strands an open row.
  */
  lemma {:induction false} RowsMatchExactlyWithoutStranding(samples: seq<Sample>, k: ProbeKey)
    ensures RowsMatchThroughout(samples, k) <==> NeverStrands(samples, k)
  {
    if NeverStrands(samples, k) {
      RowsMatchWithoutStranding(samples, k);
    }
    if samples != [] {
      var p, s := samples[..|samples| - 1], samples[|samples| - 1];
      RowsMatchExactlyWithoutStranding(p, k);
      if NeverStrands(p, k) && StrandsOpenRow(Run(p), s, k) {
        var row := StrandedRowIsNoRun(samples, k);
      }
    }
  }

  lemma NoStrandingInOrder(before: seq<Sample>, s: Sample, k: ProbeKey)
    requires s.Concerns(k) && NonDecreasing(SamplesOf(before, k) + [s.Normalized()])
    ensures !StrandsOpenRow(Run(before), s, k)
  {
    var ys := SamplesOf(before, k);
    var xs := ys + [s.Normalized()];
    LogIsRunLengthCompression(before, k);
    if ys != [] && Promotion(ys).Some? {
      assert xs[Promotion(ys).value].at <= xs[|ys|].at;
    }
  }

  /** A clock that never runs back strands nothing. */
  lemma {:induction false} NeverStrandsInOrder(samples: seq<Sample>, k: ProbeKey)
    requires NonDecreasing(SamplesOf(samples, k))
    ensures NeverStrands(samples, k)
  {
    if samples == [] {
    } else {
      var p, s := samples[..|samples| - 1], samples[|samples| - 1];
      var xs, ys := SamplesOf(samples, k), SamplesOf(p, k);
      assert forall i :: 0 <= i < |ys| ==> ys[i] == xs[i];
      NeverStrandsInOrder(p, k);
      if s.Concerns(k) {
        NoStrandingInOrder(p, s, k);
      }
    }
  }

  /**
    So after any run of samples in time order, the incident rows of a target are exactly the rows of its
    maximal bad runs: a closed one for every finished run of at least five minutes, an open one for the
    current run once a sample promoted it.
  */
  lemma IncidentsAreExactlyTheLongRuns(samples: seq<Sample>, k: ProbeKey)
    requires NonDecreasing(SamplesOf(samples, k))
    ensures forall row :: row in Run(samples).incidents && row.target.Key() == k
                          <==> IsRowOfLongRun(SamplesOf(samples, k), row)
  {
    NeverStrandsInOrder(samples, k);
    RowsMatchWithoutStranding(samples, k);
  }

  /** Each of them is stored once: two rows of a target start at least five minutes apart, in table order. */
  lemma IncidentsAreStoredOnce(samples: seq<Sample>, k: ProbeKey, a: nat, b: nat)
    requires NonDecreasing(SamplesOf(samples, k))
    requires a < b < |Run(samples).incidents|
    requires Run(samples).incidents[a].target.Key() == k && Run(samples).incidents[b].target.Key() == k
    ensures Lasted(Run(samples).incidents[a].startsAt, Run(samples).incidents[b].startsAt)
  {
    NeverStrandsInOrder(samples, k);
    IncidentTableHoldsLongRuns(samples, k);
    FinishedRowsAreSpaced(SamplesOf(samples, k));
    OwnRowsKeepOrder(Run(samples).incidents, k, a, b);
  }

  // ---- A target that failed twice

  const FAILING := ProbeTarget("node", "n", "n", "Ping")

  /** Down at 1000 and, which promotes the run, at 1300. */
  const FAILED_TWICE := [Sample(FAILING, "down", "", 1000), Sample(FAILING, "down", "", 1300)]

  lemma FailedTwiceIsPromoted()
    ensures FAILING.Key() in Run(FAILED_TWICE).states
    ensures Run(FAILED_TWICE).states[FAILING.Key()] == ProbeState(FAILING, "down", "", 1000, 1300, true)
    ensures Run(FAILED_TWICE).incidents == [ProbeIncident(FAILING, "down", "", 1000, None)]
  {
    assert FAILED_TWICE[..1] == [FAILED_TWICE[0]];
    RunExtended([], FAILED_TWICE[0]);
    RunExtended([FAILED_TWICE[0]], FAILED_TWICE[1]);
  }

  lemma FailedTwiceInOrder(k: ProbeKey)
    ensures NonDecreasing(SamplesOf(FAILED_TWICE, k))
  {
    var a, b := FAILED_TWICE[0], FAILED_TWICE[1];
    assert FAILED_TWICE[..1] == [a] && [a][..0] == [];
    assert SamplesOf([a], k) == if a.Concerns(k) then [a] else [];
    assert SamplesOf(FAILED_TWICE, k) == if b.Concerns(k) then SamplesOf([a], k) + [b] else SamplesOf([a], k);
  }
}
