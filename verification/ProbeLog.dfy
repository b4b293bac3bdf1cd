/**
  The probe log of an entity: its rows newest first, each with an end derived by a subselect, and the row
  behind every incident.
*/
module ProbeLog {
  import opened Common
  import opened Pagination
  import opened ProbeStore
  import opened ProbeRuns
  import opened ProbeQueries
  import Sorting

  /** A zero end means that the run goes on. */
  datatype ProbeLogEvent = ProbeLogEvent(event: ProbeEvent, endsAt: Instant)

  // ---- The query

  predicate SameTarget(events: seq<ProbeEvent>, i: nat, j: nat)
    requires i < |events| && j < |events|
  {
    events[j].target.Key() == events[i].target.Key()
  }

  /** The WHERE clause of the subselect: rows of the same target that come later by (changed_at, id). */
  predicate Follows(events: seq<ProbeEvent>, i: nat, j: nat)
    requires i < |events| && j < |events|
  {
    && SameTarget(events, i, j)
    && (events[j].changedAt > events[i].changedAt || (events[j].changedAt == events[i].changedAt && j > i))
  }

  /** ORDER BY changed_at ASC, id ASC LIMIT 1, among the first n rows. */
  function EarliestFollower(events: seq<ProbeEvent>, i: nat, n: nat): (b: Option<nat>)
    requires i < |events| && n <= |events|
    ensures b.Some? ==> b.value < n
  {
    if n == 0 then None
    else
      var best := EarliestFollower(events, i, n - 1);
      if Follows(events, i, n - 1) && (best.None? || events[n - 1].changedAt < events[best.value].changedAt)
        then Some(n - 1)
      else best
  }

  function DerivedEnd(events: seq<ProbeEvent>, i: nat): Option<Instant>
    requires i < |events|
  {
    var b := EarliestFollower(events, i, |events|);
    if b.None? then None else Some(events[b.value].changedAt)
  }

  /** A NULL end is read as the zero time. */
  function LogEvent(event: ProbeEvent, end: Option<Instant>): ProbeLogEvent {
    ProbeLogEvent(event, if end.Some? then end.value else 0)
  }

  function LogEventAt(events: seq<ProbeEvent>, i: nat): ProbeLogEvent
    requires i < |events|
  {
    LogEvent(events[i], DerivedEnd(events, i))
  }

  function LogEvents(events: seq<ProbeEvent>): (r: seq<ProbeLogEvent>)
    ensures |r| == |events|
  {
    seq(|events|, i requires 0 <= i < |events| => LogEventAt(events, i))
  }

  function Reversed<T>(s: seq<T>): (r: seq<T>)
    ensures |r| == |s| && forall i :: 0 <= i < |s| ==> r[i] == s[|s| - 1 - i]
  {
    seq(|s|, i requires 0 <= i < |s| => s[|s| - 1 - i])
  }

  function InEntityLog(kind: string, id: string, cutoff: int): ProbeLogEvent -> bool {
    (x: ProbeLogEvent) => x.event.target.kind == kind && x.event.target.id == id && x.event.changedAt >= cutoff
  }

  predicate ChangedLater(a: ProbeLogEvent, b: ProbeLogEvent) {
    a.event.changedAt > b.event.changedAt
  }

  /** ORDER BY changed_at DESC, id DESC, before LIMIT and OFFSET. */
  function EntityLog(events: seq<ProbeEvent>, kind: string, id: string, cutoff: int): seq<ProbeLogEvent> {
    if kind == "" || id == "" then []
    else Sorting.StableSorted(ChangedLater,
                              Sorting.Selected(InEntityLog(kind, id, cutoff), Reversed(LogEvents(events))))
  }

  function ProbeLogFor(events: seq<ProbeEvent>, kind: string, id: string, cutoff: int, limit: int, offset: int)
    : ProbeLogPage<ProbeLogEvent>
  {
    if kind == "" || id == "" || limit <= 0 then ProbeLogPage([], 0)
    else
      var log := EntityLog(events, kind, id, cutoff);
      ProbeLogPage(QueryRows(log, limit, offset), |log|)
  }

  // ---- A row of the table is a row of its target's log

  /** How many rows of the target come before row i. */
  function LogPosition(events: seq<ProbeEvent>, i: nat): nat
    requires i < |events|
  {
    |EventsOf(events[..i], events[i].target.Key())|
  }

  lemma LogSplitsAt(events: seq<ProbeEvent>, i: nat)
    requires i < |events|
    ensures var k := events[i].target.Key();
            EventsOf(events, k) == EventsOf(events[..i], k) + [events[i]] + EventsOf(events[i + 1..], k)
  {
    var keep := EventOfTarget(events[i].target.Key());
    assert events == events[..i + 1] + events[i + 1..] && events[..i + 1] == events[..i] + [events[i]];
    Sorting.SelectedConcat(keep, events[..i + 1], events[i + 1..]);
    Sorting.SelectedAppend(keep, events[..i], events[i]);
  }

  /** Row i of the table is row p of its target's log. */
  ghost predicate IsLogRow(events: seq<ProbeEvent>, k: ProbeKey, p: nat, i: nat) {
    i < |events| && events[i].target.Key() == k && LogPosition(events, i) == p
  }

  lemma {:induction false} TableRowOfLog(events: seq<ProbeEvent>, k: ProbeKey, p: nat)
    requires p < |EventsOf(events, k)|
    ensures exists i: nat :: IsLogRow(events, k, p, i)
  {
    var n := |events| - 1;
    assert events == events[..n] + [events[n]];
    EventsOfAppend(events[..n], events[n], k);
    if p < |EventsOf(events[..n], k)| {
      TableRowOfLog(events[..n], k, p);
      var i: nat :| IsLogRow(events[..n], k, p, i);
      assert events[..n][..i] == events[..i];
      assert IsLogRow(events, k, p, i);
    } else {
      assert IsLogRow(events, k, p, n);
    }
  }

  lemma OwnEventsKeepOrder(events: seq<ProbeEvent>, a: nat, b: nat)
    requires a <= b < |events| && SameTarget(events, a, b)
    requires InTimeOrder(EventsOf(events, events[a].target.Key()))
    ensures events[a].changedAt <= events[b].changedAt
  {
    var k := events[a].target.Key();
    LogSplitsAt(events, a);
    LogSplitsAt(events, b);
    assert events[..b] == events[..a] + events[a..b];
    Sorting.SelectedConcat(EventOfTarget(k), events[..a], events[a..b]);
    assert LogPosition(events, a) <= LogPosition(events, b);
    assert EventsOf(events, k)[LogPosition(events, a)] == events[a];
    assert EventsOf(events, k)[LogPosition(events, b)] == events[b];
  }

  ghost predicate IsNextRow(events: seq<ProbeEvent>, i: nat, j: nat) {
    && i < j < |events| && SameTarget(events, i, j)
    && forall m :: i < m < j ==> !SameTarget(events, i, m)
  }

  lemma {:induction false} EarliestFollowerIsNextRow(events: seq<ProbeEvent>, i: nat, n: nat)
    requires i < |events| && n <= |events|
    requires InTimeOrder(EventsOf(events, events[i].target.Key()))
    ensures var b := EarliestFollower(events, i, n);
            if b.Some? then IsNextRow(events, i, b.value) else forall m :: i < m < n ==> !SameTarget(events, i, m)
  {
    if n > 0 {
      EarliestFollowerIsNextRow(events, i, n - 1);
      var best := EarliestFollower(events, i, n - 1);
      if SameTarget(events, i, n - 1) {
        if n - 1 <= i {
          OwnEventsKeepOrder(events, n - 1, i);
        } else {
          OwnEventsKeepOrder(events, i, n - 1);
          if best.Some? {
            OwnEventsKeepOrder(events, best.value, n - 1);
          }
        }
      }
    }
  }

  lemma {:induction false} NoRowsBetween(events: seq<ProbeEvent>, i: nat, j: nat)
    requires i < j <= |events| && forall m :: i < m < j ==> !SameTarget(events, i, m)
    ensures EventsOf(events[i + 1..j], events[i].target.Key()) == []
  {
    if i + 1 < j {
      assert events[i + 1..j] == events[i + 1..j - 1] + [events[j - 1]];
      assert !SameTarget(events, i, j - 1);
      EventsOfAppend(events[i + 1..j - 1], events[j - 1], events[i].target.Key());
      NoRowsBetween(events, i, j - 1);
    }
  }

  lemma SliceJoins(events: seq<ProbeEvent>, i: nat, j: nat)
    requires i < j <= |events|
    ensures events[..i + 1] == events[..i] + [events[i]]
    ensures events[..j] == events[..i + 1] + events[i + 1..j]
  {
  }

  /** If a target's rows are in time order, the subselect finds its next row. */
  lemma DerivedEndIsNextRow(events: seq<ProbeEvent>, i: nat)
    requires i < |events| && InTimeOrder(EventsOf(events, events[i].target.Key()))
    ensures var log := EventsOf(events, events[i].target.Key());
            && LogPosition(events, i) < |log|
            && log[LogPosition(events, i)] == events[i]
            && DerivedEnd(events, i) == EndInLog(log, LogPosition(events, i))
  {
    var k := events[i].target.Key();
    var log, b := EventsOf(events, k), EarliestFollower(events, i, |events|);
    LogSplitsAt(events, i);
    EarliestFollowerIsNextRow(events, i, |events|);
    if b.Some? {
      var j := b.value;
      LogSplitsAt(events, j);
      SliceJoins(events, i, j);
      Sorting.SelectedConcat(EventOfTarget(k), events[..i + 1], events[i + 1..j]);
      EventsOfAppend(events[..i], events[i], k);
      NoRowsBetween(events, i, j);
    } else {
      assert events[i + 1..] == events[i + 1..|events|];
      NoRowsBetween(events, i, |events|);
    }
  }

  // ---- What the log of an entity lists

  function OfTarget(k: ProbeKey): ProbeLogEvent -> bool {
    (x: ProbeLogEvent) => x.event.target.Key() == k
  }

  function Since(cutoff: int): ProbeLogEvent -> bool {
    (x: ProbeLogEvent) => x.event.changedAt >= cutoff
  }

  /** A target's log with every row ended by the next. */
  function Timeline(log: seq<ProbeEvent>): (r: seq<ProbeLogEvent>)
    ensures |r| == |log|
  {
    seq(|log|, p requires 0 <= p < |log| => LogEvent(log[p], EndInLog(log, p)))
  }

  lemma LogEventsPrefix(events: seq<ProbeEvent>, k: ProbeKey, n: nat)
    requires 0 < n <= |events|
    ensures var all := LogEvents(events);
            Sorting.Selected(OfTarget(k), all[..n])
            == Sorting.Selected(OfTarget(k), all[..n - 1])
              + (if events[n - 1].target.Key() == k then [all[n - 1]] else [])
    ensures EventsOf(events[..n], k)
         == EventsOf(events[..n - 1], k) + (if events[n - 1].target.Key() == k then [events[n - 1]] else [])
  {
    var all := LogEvents(events);
    assert all[..n] == all[..n - 1] + [all[n - 1]];
    assert events[..n] == events[..n - 1] + [events[n - 1]];
    Sorting.SelectedAppend(OfTarget(k), all[..n - 1], all[n - 1]);
    EventsOfAppend(events[..n - 1], events[n - 1], k);
  }

  lemma {:induction false} OwnLogEvents(events: seq<ProbeEvent>, k: ProbeKey, n: nat)
    requires n <= |events| && InTimeOrder(EventsOf(events, k))
    ensures |EventsOf(events[..n], k)| <= |EventsOf(events, k)|
    ensures Sorting.Selected(OfTarget(k), LogEvents(events)[..n])
         == Timeline(EventsOf(events, k))[..|EventsOf(events[..n], k)|]
  {
    if n > 0 {
      OwnLogEvents(events, k, n - 1);
      LogEventsPrefix(events, k, n);
      if events[n - 1].target.Key() == k {
        DerivedEndIsNextRow(events, n - 1);
      }
    }
  }

  lemma {:induction false} SelectedReversed<T>(keep: T -> bool, s: seq<T>)
    ensures Sorting.Selected(keep, Reversed(s)) == Reversed(Sorting.Selected(keep, s))
  {
    if s == [] {
    } else {
      assert Reversed(s) == Reversed(s[1..]) + [s[0]];
      SelectedReversed(keep, s[1..]);
      Sorting.SelectedAppend(keep, Reversed(s[1..]), s[0]);
    }
  }

  predicate ChangedEarlier(a: ProbeLogEvent, b: ProbeLogEvent) {
    a.event.changedAt < b.event.changedAt
  }

  /**
    Picked out of its entity's log, a target's rows are those of its own log in the window, newest first, each
    ending where the next one of the target begins, and the newest without an end.
  */
  lemma EntityLogHoldsTimelines(events: seq<ProbeEvent>, k: ProbeKey, cutoff: int)
    requires k.kind != "" && k.id != ""
    requires InTimeOrder(EventsOf(events, k))
    ensures Sorting.Selected(OfTarget(k), EntityLog(events, k.kind, k.id, cutoff))
         == Reversed(Sorting.Selected(Since(cutoff), Timeline(EventsOf(events, k))))
  {
    var all, own := LogEvents(events), Timeline(EventsOf(events, k));
    var entity, both := InEntityLog(k.kind, k.id, cutoff), (x: ProbeLogEvent) => OfTarget(k)(x) && Since(cutoff)(x);
    var shown := Sorting.Selected(Since(cutoff), own);
    Sorting.SelectSorted(ChangedLater, OfTarget(k), Sorting.Selected(entity, Reversed(all)));
    Sorting.SelectedTwice(entity, OfTarget(k), both, Reversed(all));
    SelectedReversed(both, all);
    Sorting.SelectedTwice(OfTarget(k), Since(cutoff), both, all);
    OwnLogEvents(events, k, |events|);
    assert all[..|events|] == all && events[..|events|] == events && own[..|own|] == own;
    Sorting.SelectedIsOrdered(ChangedEarlier, Since(cutoff), own);
    Sorting.SortedOfOrdered(ChangedLater, Reversed(shown));
  }

  /** So after any run of samples the log shows a target's runs of one status that began in the window. */
  lemma EntityLogShowsTheRuns(samples: seq<Sample>, k: ProbeKey, cutoff: int)
    requires k.kind != "" && k.id != ""
    requires NonDecreasing(SamplesOf(samples, k))
    ensures Sorting.Selected(OfTarget(k), EntityLog(Run(samples).events, k.kind, k.id, cutoff))
         == Reversed(Sorting.Selected(Since(cutoff), Timeline(Compress(SamplesOf(samples, k)))))
  {
    LogIsRunLengthCompression(samples, k);
    CompressKeepsTimeOrder(SamplesOf(samples, k));
    EntityLogHoldsTimelines(Run(samples).events, k, cutoff);
  }

  /** Row j is a later row of the target of row i. */
  ghost predicate IsLater(events: seq<ProbeEvent>, i: nat, j: nat)
    requires i < |events|
  {
    && j < |events|
    && events[j].target.kind == events[i].target.kind && events[j].target.id == events[i].target.id
    && events[j].target.probeMethod == events[i].target.probeMethod
    && (events[j].changedAt > events[i].changedAt || (events[j].changedAt == events[i].changedAt && j > i))
  }

  /** What row i began ends with the earliest later row of its target; zero says that there is none. */
  ghost predicate IsDerivedEnd(events: seq<ProbeEvent>, i: nat, end: Instant)
    requires i < |events|
  {
    if exists j: nat :: IsLater(events, i, j) then
      && (exists j: nat :: IsLater(events, i, j) && events[j].changedAt == end)
      && (forall j: nat :: IsLater(events, i, j) ==> end <= events[j].changedAt)
    else end == 0
  }

  lemma {:induction false} EarliestFollowerIsEarliest(events: seq<ProbeEvent>, i: nat, n: nat)
    requires i < |events| && n <= |events|
    ensures var b := EarliestFollower(events, i, n);
            && (b.Some? ==> IsLater(events, i, b.value))
            && forall j: nat :: j < n && IsLater(events, i, j) ==>
                 b.Some? && events[b.value].changedAt <= events[j].changedAt
  {
    if n > 0 {
      EarliestFollowerIsEarliest(events, i, n - 1);
      assert Follows(events, i, n - 1) <==> IsLater(events, i, n - 1);
    }
  }

  lemma LogEventHoldsRow(events: seq<ProbeEvent>, i: nat)
    requires i < |events|
    ensures LogEventAt(events, i).event == events[i] && IsDerivedEnd(events, i, LogEventAt(events, i).endsAt)
  {
    EarliestFollowerIsEarliest(events, i, |events|);
    var b := EarliestFollower(events, i, |events|);
    assert b.Some? ==> IsLater(events, i, b.value);
  }

  /** Row i of the table is of the entity and in the window, and x shows it. */
  ghost predicate IsListed(events: seq<ProbeEvent>, i: nat, kind: string, id: string, cutoff: int, x: ProbeLogEvent) {
    && IsEntityRow(events, i, kind, id, cutoff)
    && x.event == events[i] && IsDerivedEnd(events, i, x.endsAt)
  }

  ghost predicate IsEntityRow(events: seq<ProbeEvent>, i: nat, kind: string, id: string, cutoff: int) {
    && i < |events|
    && events[i].target.kind == kind && events[i].target.id == id
    && events[i].changedAt >= cutoff
  }

  lemma ReversedMembers<T>(s: seq<T>, x: T)
    ensures x in Reversed(s) <==> x in s
  {
    if a :| 0 <= a < |s| && s[a] == x {
      assert Reversed(s)[|s| - 1 - a] == x;
    }
    if a :| 0 <= a < |s| && Reversed(s)[a] == x {
      assert s[|s| - 1 - a] == x;
    }
  }

  /** The log lists exactly the entity's rows of the window. */
  lemma EntityLogListsItsRows(events: seq<ProbeEvent>, kind: string, id: string, cutoff: int, x: ProbeLogEvent)
    requires kind != "" && id != ""
    ensures x in EntityLog(events, kind, id, cutoff) <==> exists i: nat :: IsListed(events, i, kind, id, cutoff, x)
  {
    var all, keep := LogEvents(events), InEntityLog(kind, id, cutoff);
    Sorting.SelectedMembers(keep, Reversed(all));
    Sorting.SortedHasSameElements(ChangedLater, Sorting.Selected(keep, Reversed(all)));
    ReversedMembers(all, x);
    if x in all && keep(x) {
      var i: nat :| i < |all| && all[i] == x;
      LogEventHoldsRow(events, i);
      assert IsListed(events, i, kind, id, cutoff, x);
    }
    if i: nat :| IsListed(events, i, kind, id, cutoff, x) {
      LogEventHoldsRow(events, i);
      assert all[i] == x;
    }
  }

  /** Row n of the log shows row places[n] of the table, and the log shows every row of the entity in the window. */
  ghost predicate ShowsRows(log: seq<ProbeLogEvent>, events: seq<ProbeEvent>, kind: string, id: string, cutoff: int,
                            places: seq<nat>) {
    && |log| == |places| && Sorting.Unique(places)
    && (forall n :: 0 <= n < |log| ==> IsListed(events, places[n], kind, id, cutoff, log[n]))
    && (forall i: nat :: IsEntityRow(events, i, kind, id, cutoff) ==> i in places)
  }

  /** Later rows first; of two rows of one instant, the later row of the table. */
  ghost predicate IsNewestFirst(log: seq<ProbeLogEvent>, places: seq<nat>)
    requires |log| == |places|
  {
    forall m, n :: 0 <= m < n < |log| ==>
      && log[m].event.changedAt >= log[n].event.changedAt
      && (log[m].event.changedAt == log[n].event.changedAt ==> places[m] > places[n])
  }

  /** Places counted from the end of the table. */
  function FromEnd(found: seq<nat>, size: nat): (r: seq<nat>)
    requires forall n :: 0 <= n < |found| ==> found[n] < size
    ensures |r| == |found| && forall n :: 0 <= n < |r| ==> r[n] == size - 1 - found[n]
  {
    seq(|found|, n requires 0 <= n < |found| => size - 1 - found[n])
  }

  lemma ReversedRow(events: seq<ProbeEvent>, i: nat)
    requires i < |events|
    ensures Reversed(LogEvents(events))[|events| - 1 - i] == LogEventAt(events, i)
  {
  }

  lemma FoundRowIsListed(events: seq<ProbeEvent>, kind: string, id: string, cutoff: int, log: seq<ProbeLogEvent>,
                         found: seq<nat>, n: nat)
    requires Sorting.IsAnswerAt(ChangedLater, InEntityLog(kind, id, cutoff), Reversed(LogEvents(events)), log, found)
    requires n < |log|
    ensures found[n] < |events| && IsListed(events, |events| - 1 - found[n], kind, id, cutoff, log[n])
  {
    var i := |events| - 1 - found[n];
    assert found[n] in found;
    ReversedRow(events, i);
    LogEventHoldsRow(events, i);
  }

  lemma EntityRowIsFound(events: seq<ProbeEvent>, kind: string, id: string, cutoff: int, log: seq<ProbeLogEvent>,
                         found: seq<nat>, i: nat)
    requires Sorting.IsAnswerAt(ChangedLater, InEntityLog(kind, id, cutoff), Reversed(LogEvents(events)), log, found)
    requires IsEntityRow(events, i, kind, id, cutoff)
    ensures |events| - 1 - i in found
  {
    ReversedRow(events, i);
  }

  lemma FoundRowsAreShown(events: seq<ProbeEvent>, kind: string, id: string, cutoff: int, log: seq<ProbeLogEvent>,
                          found: seq<nat>) returns (places: seq<nat>)
    requires Sorting.IsAnswerAt(ChangedLater, InEntityLog(kind, id, cutoff), Reversed(LogEvents(events)), log, found)
    ensures |places| == |log| && forall n :: 0 <= n < |log| ==> places[n] == |events| - 1 - found[n]
    ensures ShowsRows(log, events, kind, id, cutoff, places)
  {
    places := FromEnd(found, |events|);
    forall n | 0 <= n < |log|
      ensures IsListed(events, places[n], kind, id, cutoff, log[n])
    {
      FoundRowIsListed(events, kind, id, cutoff, log, found, n);
    }
    forall i: nat | IsEntityRow(events, i, kind, id, cutoff)
      ensures i in places
    {
      EntityRowIsFound(events, kind, id, cutoff, log, found, i);
      var n :| 0 <= n < |found| && found[n] == |events| - 1 - i;
      assert places[n] == i;
    }
  }

  lemma EntityLogIsNewestFirst(events: seq<ProbeEvent>, kind: string, id: string, cutoff: int)
    returns (places: seq<nat>)
    requires kind != "" && id != ""
    ensures ShowsRows(EntityLog(events, kind, id, cutoff), events, kind, id, cutoff, places)
    ensures IsNewestFirst(EntityLog(events, kind, id, cutoff), places)
  {
    var found := Sorting.AnswerPlaces(ChangedLater, InEntityLog(kind, id, cutoff), Reversed(LogEvents(events)));
    places := FoundRowsAreShown(events, kind, id, cutoff, EntityLog(events, kind, id, cutoff), found);
  }

  // ---- The row behind every incident

  ghost predicate IsLogRowOf(events: seq<ProbeEvent>, i: nat, k: ProbeKey, span: Span) {
    && i < |events| && events[i].target.Key() == k
    && span == Span(events[i].status, events[i].changedAt, DerivedEnd(events, i))
  }

  /**
    Every incident recorded, and every incident shown, has a log row of its target with the same status, start
    and derived end.
  */
  lemma EveryIncidentHasALogRow(samples: seq<Sample>, now: int, cutoff: int, answer: seq<ProbeIncident>,
                                r: ProbeIncident)
    returns (i: nat)
    requires forall k :: NonDecreasing(SamplesOf(samples, k))
    requires IsProbeIncidentsAnswer(Run(samples), now, cutoff, answer)
    requires r in Run(samples).incidents || r in answer
    ensures IsLogRowOf(Run(samples).events, i, r.target.Key(), SpanOf(r))
    ensures !IsOperational(r.status)
    ensures r.endsAt.Some? ==> Lasted(r.startsAt, r.endsAt.value)
  {
    var events, k := Run(samples).events, r.target.Key();
    var p := EveryIncidentIsInTheLog(samples, now, cutoff, answer, r);
    TableRowOfLog(events, k, p);
    i :| IsLogRow(events, k, p, i);
    LogSplitsAt(events, i);
    DerivedEndIsNextRow(events, i);
  }
}
