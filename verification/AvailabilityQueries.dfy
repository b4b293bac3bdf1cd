/** The queries that feed probe availability fetch few events; for every window these are as good as all. */
module AvailabilityQueries {
  import opened Common
  import opened Outages
  import opened ProbeStore
  import opened ProbeRuns
  import opened ProbeInvariants
  import opened ProbeQueries
  import opened Availability
  import opened AvailabilityMetrics
  import Sorting

  predicate EarlierEvent(a: ProbeEvent, b: ProbeEvent) {
    a.changedAt < b.changedAt
  }

  /** A target's events ORDER BY changed_at ASC, id ASC. */
  function TargetLog(events: seq<ProbeEvent>, k: ProbeKey): seq<ProbeEvent> {
    Sorting.StableSorted(EarlierEvent, EventsOf(events, k))
  }

  function Before(start: int): ProbeEvent -> bool {
    (e: ProbeEvent) => e.changedAt < start
  }

  function From(start: int): ProbeEvent -> bool {
    (e: ProbeEvent) => e.changedAt >= start
  }

  function Between(start: int, end: int): ProbeEvent -> bool {
    (e: ProbeEvent) => start <= e.changedAt <= end
  }

  /** ORDER BY changed_at DESC, id DESC LIMIT 1 of the events before `start`, as a list. */
  function LastBefore(log: seq<ProbeEvent>, start: int): (r: seq<ProbeEvent>)
    ensures |r| <= 1
  {
    var earlier := Sorting.Selected(Before(start), log);
    if earlier == [] then [] else [earlier[|earlier| - 1]]
  }

  function Fetched(log: seq<ProbeEvent>, start: int, end: int): seq<ProbeEvent> {
    LastBefore(log, start) + Sorting.Selected(Between(start, end), log)
  }

  // ---- What the single-target query answers

  ghost predicate InBounds(e: ProbeEvent, k: ProbeKey, start: int, end: int) {
    e.target.Key() == k && start <= e.changedAt <= end
  }

  ghost predicate IsEarlier(e: ProbeEvent, k: ProbeKey, start: int) {
    e.target.Key() == k && e.changedAt < start
  }

  ghost function RowsInBounds(k: ProbeKey, start: int, end: int): ProbeEvent -> bool {
    (e: ProbeEvent) => InBounds(e, k, start, end)
  }

  /** None, and then there is no earlier event of the target, or the single latest one. */
  ghost predicate IsLatestEarlier(events: seq<ProbeEvent>, k: ProbeKey, start: int, previous: seq<ProbeEvent>) {
    if previous == [] then forall e :: e in events ==> !IsEarlier(e, k, start)
    else
      && |previous| == 1 && previous[0] in events && IsEarlier(previous[0], k, start)
      && forall e :: e in events && IsEarlier(e, k, start) ==> e.changedAt <= previous[0].changedAt
  }

  /**
    In time order the target's events in the bounds, each as often as the table has it, after the latest
    earlier one.
  */
  ghost predicate IsFetched(events: seq<ProbeEvent>, k: ProbeKey, start: int, end: int, answer: seq<ProbeEvent>) {
    InTimeOrder(answer) && exists d :: IsSplitAt(events, k, start, end, answer, d)
  }

  ghost predicate IsSplitAt(events: seq<ProbeEvent>, k: ProbeKey, start: int, end: int, answer: seq<ProbeEvent>,
                            d: nat) {
    && d <= |answer|
    && IsLatestEarlier(events, k, start, answer[..d])
    && multiset(answer[d..]) == multiset(Sorting.Selected(RowsInBounds(k, start, end), events))
  }

  lemma EarlierRows(events: seq<ProbeEvent>, k: ProbeKey, start: int)
    ensures var earlier := Sorting.Selected(Before(start), TargetLog(events, k));
            && Sorting.Ordered(EarlierEvent, earlier)
            && forall e :: e in earlier <==> e in events && IsEarlier(e, k, start)
  {
    Sorting.SelectedMembers(EventOfTarget(k), events);
    Sorting.SortedHasSameElements(EarlierEvent, EventsOf(events, k));
    Sorting.SelectedMembers(Before(start), TargetLog(events, k));
    Sorting.SortedIsOrdered(EarlierEvent, EventsOf(events, k));
    Sorting.SelectedIsOrdered(EarlierEvent, Before(start), TargetLog(events, k));
  }

  lemma LastBeforeIsLatest(events: seq<ProbeEvent>, k: ProbeKey, start: int)
    ensures IsLatestEarlier(events, k, start, LastBefore(TargetLog(events, k), start))
  {
    var earlier := Sorting.Selected(Before(start), TargetLog(events, k));
    EarlierRows(events, k, start);
    if earlier == [] {
      assert forall e :: e in events ==> !IsEarlier(e, k, start);
    } else {
    }
  }

  lemma BetweenIsInBounds(events: seq<ProbeEvent>, k: ProbeKey, start: int, end: int)
    ensures multiset(Sorting.Selected(Between(start, end), TargetLog(events, k)))
         == multiset(Sorting.Selected(RowsInBounds(k, start, end), events))
  {
    Sorting.SelectSorted(EarlierEvent, Between(start, end), EventsOf(events, k));
    Sorting.SortedIsPermutation(EarlierEvent, Sorting.Selected(Between(start, end), EventsOf(events, k)));
    Sorting.SelectedTwice(EventOfTarget(k), Between(start, end), RowsInBounds(k, start, end), events);
  }

  lemma FetchedIsFetched(events: seq<ProbeEvent>, k: ProbeKey, start: int, end: int)
    ensures IsFetched(events, k, start, end, Fetched(TargetLog(events, k), start, end))
  {
    var log := TargetLog(events, k);
    var answer, d := Fetched(log, start, end), |LastBefore(log, start)|;
    TargetLogIsOrdered(events, k);
    FetchedIsOrdered(log, k, start, end);
    LastBeforeIsLatest(events, k, start);
    BetweenIsInBounds(events, k, start, end);
    assert answer[..d] == LastBefore(log, start) && answer[d..] == Sorting.Selected(Between(start, end), log);
    assert IsSplitAt(events, k, start, end, answer, d);
  }

  // ---- The log of one target

  ghost predicate OneTarget(log: seq<ProbeEvent>, k: ProbeKey) {
    forall i :: 0 <= i < |log| ==> log[i].target.Key() == k
  }

  lemma TargetLogIsOrdered(events: seq<ProbeEvent>, k: ProbeKey)
    ensures InTimeOrder(TargetLog(events, k)) && OneTarget(TargetLog(events, k), k)
  {
    var own, log := EventsOf(events, k), TargetLog(events, k);
    Sorting.SortedIsOrdered(EarlierEvent, own);
    Sorting.SortedHasSameElements(EarlierEvent, own);
    Sorting.SelectedMembers(EventOfTarget(k), events);
    forall i, j | 0 <= i <= j < |log|
      ensures log[i].changedAt <= log[j].changedAt && log[i].target.Key() == k
    {
      assert i < j ==> !EarlierEvent(log[j], log[i]);
      assert log[i] in log;
    }
  }

  /** Ordered events of one target are their own sorted form. */
  lemma OneTargetIsSorted(log: seq<ProbeEvent>, k: ProbeKey, end: int)
    requires InTimeOrder(log) && OneTarget(log, k)
    ensures SortedEvents(log, end) == Sorting.Selected(UpTo(end), log)
  {
    forall i, j | 0 <= i < j < |log|
      ensures !EventBefore(log[j], log[i])
    {
      assert log[i].target.Key().probeMethod == log[j].target.Key().probeMethod;
      if log[i].changedAt == log[j].changedAt && StringLess(log[j].target.probeMethod, log[i].target.probeMethod) {
        StringLessIsAsymmetric(log[j].target.probeMethod, log[i].target.probeMethod);
      }
    }
    Sorting.SelectedIsOrdered(EventBefore, UpTo(end), log);
    Sorting.SortedOfOrdered(EventBefore, Sorting.Selected(UpTo(end), log));
  }

  lemma {:induction false} SplitByTime(log: seq<ProbeEvent>, start: int)
    requires InTimeOrder(log)
    ensures log == Sorting.Selected(Before(start), log) + Sorting.Selected(From(start), log)
  {
    if log != [] {
      SplitByTime(log[1..], start);
      assert log == [log[0]] + log[1..];
      if log[0].changedAt >= start {
        Sorting.SelectedMembers(Before(start), log[1..]);
        assert Sorting.Selected(Before(start), log[1..]) == [];
      }
    }
  }

  /** What both the full and the trimmed log contribute inside the bounds. */
  lemma UpToEnd(log: seq<ProbeEvent>, k: ProbeKey, start: int, end: int, e: int)
    requires InTimeOrder(log) && OneTarget(log, k) && start <= e <= end
    ensures var inside := Sorting.Selected(UpTo(e), Sorting.Selected(From(start), log));
            && SortedEvents(log, e) == Sorting.Selected(Before(start), log) + inside
            && SortedEvents(Fetched(log, start, end), e) == LastBefore(log, start) + inside
  {
    var earlier, later := Sorting.Selected(Before(start), log), Sorting.Selected(From(start), log);
    var between := Sorting.Selected(Between(start, end), log);
    var fetched := Fetched(log, start, end);
    SplitByTime(log, start);
    OneTargetIsSorted(log, k, e);
    Sorting.SelectedConcat(UpTo(e), earlier, later);
    Sorting.SelectedMembers(Before(start), log);
    Sorting.SelectedMembers(Between(start, end), log);
    assert forall i :: 0 <= i < |earlier| ==> earlier[i] in earlier;
    Sorting.SelectedAll(UpTo(e), earlier);

    FetchedIsOrdered(log, k, start, end);
    OneTargetIsSorted(fetched, k, e);
    Sorting.SelectedConcat(UpTo(e), LastBefore(log, start), between);
    Sorting.SelectedAll(UpTo(e), LastBefore(log, start));
    Sorting.SelectedTwice(Between(start, end), UpTo(e), Between(start, e), log);
    Sorting.SelectedTwice(From(start), UpTo(e), Between(start, e), log);
  }

  lemma FetchedIsOrdered(log: seq<ProbeEvent>, k: ProbeKey, start: int, end: int)
    requires InTimeOrder(log) && OneTarget(log, k)
    ensures InTimeOrder(Fetched(log, start, end)) && OneTarget(Fetched(log, start, end), k)
  {
    var earlier, between := Sorting.Selected(Before(start), log), Sorting.Selected(Between(start, end), log);
    var fetched := Fetched(log, start, end);
    Sorting.SelectedIsOrdered(EarlierEvent, Between(start, end), log);
    Sorting.SelectedMembers(Between(start, end), log);
    Sorting.SelectedMembers(Before(start), log);
    assert forall i :: 0 <= i < |between| ==> between[i] in between && between[i].target.Key() == k;
    if earlier != [] {
      assert earlier[|earlier| - 1] in earlier;
    }
    forall i, j | 0 <= i <= j < |fetched|
      ensures fetched[i].changedAt <= fetched[j].changedAt
    {
      var d := |LastBefore(log, start)|;
      if d <= i < j {
        assert !EarlierEvent(between[j - d], between[i - d]);
      }
    }
  }

  lemma {:induction false} CountUpToOfPrefix(before: seq<ProbeEvent>, ev: seq<ProbeEvent>, start: int)
    requires forall i :: 0 <= i < |before| ==> before[i].changedAt <= start
    ensures CountUpTo(before + ev, start) == |before| + CountUpTo(ev, start)
  {
    if before == [] {
      assert before + ev == ev;
    } else {
      assert (before + ev)[1..] == before[1..] + ev;
      CountUpToOfPrefix(before[1..], ev, start);
    }
  }

  /** Of the events up to the start of a window only the last one matters. */
  lemma OnlyTheLastEarlierEventMatters(earlier: seq<ProbeEvent>, ev: seq<ProbeEvent>, start: int, end: int)
    requires earlier != [] && forall e :: e in earlier ==> e.changedAt <= start
    ensures var one := [earlier[|earlier| - 1]];
            && SegmentsAndMissing(earlier + ev, start, end) == SegmentsAndMissing(one + ev, start, end)
            && forall t :: t >= start ==> Replay(earlier + ev, t) == Replay(one + ev, t)
  {
    var before, one := earlier[..|earlier| - 1], [earlier[|earlier| - 1]];
    assert forall i :: 0 <= i < |earlier| ==> earlier[i] in earlier;
    SegmentsAfterPrefix(earlier, ev, start, end);
    SegmentsAfterPrefix(one, ev, start, end);
    assert earlier + ev == before + (one + ev);
    forall t | t >= start
      ensures Replay(earlier + ev, t) == Replay(one + ev, t)
    {
      ReplayIgnoresEarlier(before, one + ev, t);
    }
  }

  lemma SegmentsAfterPrefix(before: seq<ProbeEvent>, ev: seq<ProbeEvent>, start: int, end: int)
    requires before != [] && forall i :: 0 <= i < |before| ==> before[i].changedAt <= start
    ensures var c := CountUpTo(ev, start);
            SegmentsAndMissing(before + ev, start, end)
            == (SegmentsFrom(ev[c..], start, (if c > 0 then ev[c - 1] else before[|before| - 1]).status, end), [])
  {
    var c := CountUpTo(ev, start);
    CountUpToOfPrefix(before, ev, start);
    assert (before + ev)[|before| + c..] == ev[c..];
  }

  /** For every window inside the fetch bounds the trimmed log gives the segments, and the metric, of the full log. */
  lemma TrimmingPreservesMeaning(events: seq<ProbeEvent>, k: ProbeKey, start: int, end: int,
                                 s: int, e: int)
    requires start <= s && e <= end
    ensures var log, fetched := TargetLog(events, k), Fetched(TargetLog(events, k), start, end);
            && (s < e ==>
                  SegmentsAndMissing(SortedEvents(fetched, e), s, e) == SegmentsAndMissing(SortedEvents(log, e), s, e))
            && ProbeMetric(s, e, fetched) == ProbeMetric(s, e, log)
  {
    var log := TargetLog(events, k);
    var fetched := Fetched(log, start, end);
    TargetLogIsOrdered(events, k);
    if s < e {
      SameInsideTheBounds(log, k, start, end, s, e);
      assert DownTicks(SortedEvents(fetched, e), s, e) == DownTicks(SortedEvents(log, e), s, e);
    }
  }

  lemma SameInsideTheBounds(log: seq<ProbeEvent>, k: ProbeKey, start: int, end: int, s: int, e: int)
    requires InTimeOrder(log) && OneTarget(log, k) && start <= s < e <= end
    ensures var full, trimmed := SortedEvents(log, e), SortedEvents(Fetched(log, start, end), e);
            && SegmentsAndMissing(trimmed, s, e) == SegmentsAndMissing(full, s, e)
            && forall t :: s <= t < e ==> Replay(trimmed, t) == Replay(full, t)
  {
    UpToEnd(log, k, start, end, e);
    var earlier := Sorting.Selected(Before(start), log);
    var inside := Sorting.Selected(UpTo(e), Sorting.Selected(From(start), log));
    if earlier != [] {
      Sorting.SelectedMembers(Before(start), log);
      OnlyTheLastEarlierEventMatters(earlier, inside, s, e);
    }
  }

  // ---- From samples to percentages

  lemma {:induction false} ReplayIgnoresLater(log: seq<ProbeEvent>, end: int, t: int)
    requires t <= end
    ensures Replay(Sorting.Selected(UpTo(end), log), t) == Replay(log, t)
  {
    if log != [] {
      var p, e := log[..|log| - 1], log[|log| - 1];
      ReplayIgnoresLater(p, end, t);
      assert log == p + [e];
      Sorting.SelectedAppend(UpTo(end), p, e);
      var kept := Sorting.Selected(UpTo(end), p);
      assert (kept + [e])[..|kept|] == kept;
    }
  }

  /** The ticks of a window at which the last sample had an unavailable status. */
  ghost function SampledDownTicks(xs: seq<Sample>, start: int, end: int): set<int> {
    set t | t in Ticks(start, end) && SampledAt(xs, t).Some? && IsDown(SampledAt(xs, t).value)
  }

  /** Up to its end a window of the compressed log tells what the samples tell. */
  lemma LogTellsTheSamples(samples: seq<Sample>, k: ProbeKey, e: int)
    requires NonDecreasing(SamplesOf(samples, k))
    ensures var ev := SortedEvents(TargetLog(Run(samples).events, k), e);
            forall t: int :: t <= e ==> Replay(ev, t) == SampledAt(SamplesOf(samples, k), t)
  {
    var xs, log := SamplesOf(samples, k), EventsOf(Run(samples).events, k);
    LogIsRunLengthCompression(samples, k);
    CompressKeepsTimeOrder(xs);
    Sorting.SortedOfOrdered(EarlierEvent, log);
    TargetLogIsOrdered(Run(samples).events, k);
    OneTargetIsSorted(log, k, e);
    forall t: int | t <= e
      ensures Replay(SortedEvents(log, e), t) == SampledAt(xs, t)
    {
      ReplayIgnoresLater(log, e, t);
      CompressionReplays(xs, t);
    }
  }

  lemma SameDownTicks(ev: seq<ProbeEvent>, xs: seq<Sample>, s: int, e: int)
    requires forall t: int :: t <= e ==> Replay(ev, t) == SampledAt(xs, t)
    ensures DownTicks(ev, s, e) == SampledDownTicks(xs, s, e)
  {
  }

  /**
    End to end: the metric computed from the compressed log is that of the raw samples, the share of the
    window's ticks at which the last sample was not an unavailable one.
  */
  lemma MetricIsThatOfTheSamples(samples: seq<Sample>, k: ProbeKey, s: int, e: int)
    requires NonDecreasing(SamplesOf(samples, k))
    ensures var xs, metric := SamplesOf(samples, k), ProbeMetric(s, e, TargetLog(Run(samples).events, k));
            && (metric.Some? <==> s < e && SampledAt(xs, s).Some?)
            && (metric.Some? ==> IsPercentage(metric.value, e - s, |SampledDownTicks(xs, s, e)|))
  {
    var xs, ev := SamplesOf(samples, k), SortedEvents(TargetLog(Run(samples).events, k), e);
    LogTellsTheSamples(samples, k, e);
    SameDownTicks(ev, xs, s, e);
    ProbeMetricIsPercentage(s, e, TargetLog(Run(samples).events, k));
  }

  // ---- The batched query

  /** The one probe method that counts towards the availability of a kind of entity. */
  function AvailabilityProbeMethod(kind: string): Option<string> {
    if kind == ENTITY_NODE then Some("Ping")
    else if kind == ENTITY_DNS_RESOLVER || kind == ENTITY_NAME_SERVER then Some("Lookup")
    else if kind == ENTITY_WEB_SERVICE || kind == ENTITY_VPSADMIN then Some("HTTP")
    else None
  }

  function AvailabilityTarget(entity: HistoryKey): Option<ProbeKey> {
    if entity.kind == "" || entity.id == "" then None
    else
      var m := AvailabilityProbeMethod(entity.kind);
      if m.None? then None else Some(ProbeKey(entity.kind, entity.id, m.value))
  }

  /** This method, and no other, counts towards the availability of entities of this kind. */
  ghost predicate Counts(kind: string, probeMethod: string) {
    || (kind == "node" && probeMethod == "Ping")
    || ((kind == "dns_resolver" || kind == "nameserver") && probeMethod == "Lookup")
    || ((kind == "web_service" || kind == "vpsadmin") && probeMethod == "HTTP")
  }

  ghost predicate IsCountingTarget(entity: HistoryKey, k: ProbeKey) {
    k.kind == entity.kind && k.id == entity.id && k.id != "" && Counts(k.kind, k.probeMethod)
  }

  lemma AvailabilityTargetCounts(entity: HistoryKey, k: ProbeKey)
    ensures AvailabilityTarget(entity) == Some(k) <==> IsCountingTarget(entity, k)
  {
  }

  /** A named entity is asked for its one method that counts, or for all, and then the method is left empty. */
  ghost predicate IsTargetOfQuery(targets: seq<HistoryKey>, includeMethod: bool, k: ProbeKey) {
    && HistoryKey(k.kind, k.id) in targets && k.kind != "" && k.id != ""
    && (if includeMethod then Counts(k.kind, k.probeMethod) else k.probeMethod == "")
  }

  method ProbeEventQueryTargets(targets: seq<HistoryKey>, includeMethod: bool) returns (ret: seq<ProbeKey>)
    ensures Sorting.Unique(ret)
    ensures forall k :: k in ret <==> IsTargetOfQuery(targets, includeMethod, k)
  {
    ret := [];
    var seen: set<ProbeKey> := {};
    for i := 0 to |targets|
      invariant Sorting.Unique(ret)
      invariant forall k :: k in seen <==> k in ret
      invariant forall k :: k in ret <==> IsTargetOfQuery(targets[..i], includeMethod, k)
    {
      var target := targets[i];
      assert targets[..i + 1] == targets[..i] + [target];
      if target.kind == "" || target.id == "" {
        continue;
      }
      var probeMethod := "";
      if includeMethod {
        var counting := AvailabilityProbeMethod(target.kind);
        if counting.None? {
          continue;
        }
        probeMethod := counting.value;
      }
      var key := ProbeKey(target.kind, target.id, probeMethod);
      if key in seen {
        continue;
      }
      seen := seen + {key};
      ret := ret + [key];
    }
    assert targets[..|targets|] == targets;
  }

  predicate KeyBefore(a: ProbeKey, b: ProbeKey) {
    if a.kind != b.kind then StringLess(a.kind, b.kind)
    else if a.id != b.id then StringLess(a.id, b.id)
    else StringLess(a.probeMethod, b.probeMethod)
  }

  lemma {:induction false} StringLessIsTotal(a: string, b: string)
    ensures a == b || StringLess(a, b) || StringLess(b, a)
  {
    if a != "" && b != "" && a[0] == b[0] {
      StringLessIsTotal(a[1..], b[1..]);
      assert a == [a[0]] + a[1..] && b == [b[0]] + b[1..];
    }
  }

  /** A strict order on strings is what its chains need: asymmetric, transitive, total. */
  lemma StringLessFacts(x: string, y: string, z: string)
    ensures !(StringLess(x, y) && StringLess(y, x))
    ensures !StringLess(y, x) && !StringLess(z, y) ==> !StringLess(z, x)
    ensures x == y || StringLess(x, y) || StringLess(y, x)
  {
    if StringLess(x, y) {
      StringLessIsAsymmetric(x, y);
    }
    if !StringLess(y, x) && !StringLess(z, y) {
      StringNotLessIsTransitive(x, y, z);
    }
    StringLessIsTotal(x, y);
  }

  lemma KeyBeforeFacts(x: ProbeKey, y: ProbeKey, z: ProbeKey)
    ensures !(KeyBefore(x, y) && KeyBefore(y, x))
    ensures !KeyBefore(y, x) && !KeyBefore(z, y) ==> !KeyBefore(z, x)
    ensures x == y || KeyBefore(x, y) || KeyBefore(y, x)
  {
    StringLessFacts(x.kind, y.kind, z.kind);
    StringLessFacts(y.kind, z.kind, x.kind);
    StringLessFacts(x.id, y.id, z.id);
    StringLessFacts(y.id, z.id, x.id);
    StringLessFacts(x.probeMethod, y.probeMethod, z.probeMethod);
  }

  /** ORDER BY entity_kind, entity_id, method, changed_at */
  predicate RowBefore(a: ProbeEvent, b: ProbeEvent) {
    if a.target.Key() != b.target.Key() then KeyBefore(a.target.Key(), b.target.Key())
    else a.changedAt < b.changedAt
  }

  lemma RowBeforeIsAnOrder()
    ensures Sorting.StrictWeakOrder(RowBefore)
  {
    forall x, y | RowBefore(x, y)
      ensures !RowBefore(y, x)
    {
      KeyBeforeFacts(x.target.Key(), y.target.Key(), x.target.Key());
    }
    forall x, y, z | !RowBefore(y, x) && !RowBefore(z, y)
      ensures !RowBefore(z, x)
    {
      KeyBeforeFacts(x.target.Key(), y.target.Key(), z.target.Key());
      KeyBeforeFacts(y.target.Key(), z.target.Key(), x.target.Key());
    }
  }

  function WantedRow(wanted: seq<ProbeKey>, end: int): ProbeEvent -> bool {
    (e: ProbeEvent) => e.changedAt <= end && e.target.Key() in wanted
  }

  /** The rows of the batched query, grouped by target and in time order. */
  function BatchRows(events: seq<ProbeEvent>, wanted: seq<ProbeKey>, end: int): seq<ProbeEvent> {
    Sorting.StableSorted(RowBefore, Sorting.Selected(WantedRow(wanted, end), events))
  }

  function OfEntity(entity: HistoryKey): ProbeEvent -> bool {
    (e: ProbeEvent) => e.target.kind == entity.kind && e.target.id == entity.id
  }

  function OfTargetUpTo(k: ProbeKey, end: int): ProbeEvent -> bool {
    (e: ProbeEvent) => e.target.Key() == k && e.changedAt <= end
  }

  ghost predicate AreQueryTargets(wanted: seq<ProbeKey>) {
    forall k :: k in wanted ==> IsCountingTarget(HistoryKey(k.kind, k.id), k)
  }

  lemma HasAMember(rows: seq<ProbeEvent>)
    requires rows != []
    ensures exists e :: e in rows
  {
    assert rows[0] in rows;
  }

  /** Picked out of the batch, an entity's rows are its target's log up to the end. */
  lemma BatchRowsOfEntity(events: seq<ProbeEvent>, wanted: seq<ProbeKey>, end: int, entity: HistoryKey)
    requires AreQueryTargets(wanted)
    ensures Sorting.Selected(OfEntity(entity), BatchRows(events, wanted, end))
         == if AvailabilityTarget(entity).Some? && AvailabilityTarget(entity).value in wanted
            then Sorting.Selected(UpTo(end), TargetLog(events, AvailabilityTarget(entity).value))
            else []
  {
    var kept := Sorting.Selected(WantedRow(wanted, end), events);
    RowBeforeIsAnOrder();
    Sorting.SelectSorted(RowBefore, OfEntity(entity), kept);
    var own := Sorting.Selected(OfEntity(entity), kept);
    Sorting.SelectedMembers(WantedRow(wanted, end), events);
    Sorting.SelectedMembers(OfEntity(entity), kept);
    if AvailabilityTarget(entity).Some? && AvailabilityTarget(entity).value in wanted {
      var k := AvailabilityTarget(entity).value;
      Sorting.SelectedTwice(WantedRow(wanted, end), OfEntity(entity), OfTargetUpTo(k, end), events);
      Sorting.SelectedTwice(EventOfTarget(k), UpTo(end), OfTargetUpTo(k, end), events);
      Sorting.SortedUnderAgreeingOrders(RowBefore, EarlierEvent, own);
      Sorting.SelectSorted(EarlierEvent, UpTo(end), EventsOf(events, k));
    } else {
      if own != [] {
        HasAMember(own);
      }
    }
  }

  /** Up to the end, the two halves around `start` are what the single-target query fetches. */
  lemma HalvesAreFetched(log: seq<ProbeEvent>, start: int, end: int)
    requires start < end
    ensures var upTo := Sorting.Selected(UpTo(end), log);
            Fetched(log, start, end) == LastBefore(upTo, start) + Sorting.Selected(From(start), upTo)
  {
    Sorting.SelectedTwice(UpTo(end), Before(start), Before(start), log);
    Sorting.SelectedTwice(UpTo(end), From(start), Between(start, end), log);
  }

  function EntityPart(rows: seq<ProbeEvent>, entity: HistoryKey): seq<ProbeEvent> {
    Sorting.Selected(OfEntity(entity), rows)
  }

  function ListFor(m: map<HistoryKey, seq<ProbeEvent>>, entity: HistoryKey): seq<ProbeEvent> {
    if entity in m then m[entity] else []
  }

  /** What the row loop has gathered: per entity the last row before `start`, and the rows from `start` on. */
  ghost predicate GatheredFor(part: seq<ProbeEvent>, start: int, last: seq<ProbeEvent>, list: seq<ProbeEvent>) {
    && LastBefore(part, start) == last
    && list == Sorting.Selected(From(start), part)
  }

  ghost predicate Gathered(rows: seq<ProbeEvent>, start: int, previous: map<HistoryKey, ProbeEvent>,
                           lists: map<HistoryKey, seq<ProbeEvent>>) {
    forall entity: HistoryKey ::
      GatheredFor(EntityPart(rows, entity), start, LastFor(previous, entity), ListFor(lists, entity))
  }

  function LastFor(m: map<HistoryKey, ProbeEvent>, entity: HistoryKey): seq<ProbeEvent> {
    if entity in m then [m[entity]] else []
  }

  /** A row is gathered for its own entity. */
  lemma GatherForOneMore(rows: seq<ProbeEvent>, e: ProbeEvent, start: int, entity: HistoryKey, last: seq<ProbeEvent>,
                         list: seq<ProbeEvent>)
    requires GatheredFor(EntityPart(rows, entity), start, last, list)
    ensures var own, before := OfEntity(entity)(e), e.changedAt < start;
            GatheredFor(EntityPart(rows + [e], entity), start, if own && before then [e] else last,
                        if own && !before then list + [e] else list)
  {
    var part := EntityPart(rows, entity);
    Sorting.SelectedAppend(OfEntity(entity), rows, e);
    Sorting.SelectedAppend(Before(start), part, e);
    Sorting.SelectedAppend(From(start), part, e);
  }

  lemma GatherOneMore(rows: seq<ProbeEvent>, e: ProbeEvent, start: int, previous: map<HistoryKey, ProbeEvent>,
                      lists: map<HistoryKey, seq<ProbeEvent>>)
    requires Gathered(rows, start, previous, lists)
    ensures var key := HistoryKey(e.target.kind, e.target.id);
            if e.changedAt < start then Gathered(rows + [e], start, previous[key := e], lists)
            else Gathered(rows + [e], start, previous, lists[key := ListFor(lists, key) + [e]])
  {
    var key := HistoryKey(e.target.kind, e.target.id);
    var previous' := if e.changedAt < start then previous[key := e] else previous;
    var lists' := if e.changedAt < start then lists else lists[key := ListFor(lists, key) + [e]];
    forall entity: HistoryKey
      ensures GatheredFor(EntityPart(rows + [e], entity), start, LastFor(previous', entity), ListFor(lists', entity))
    {
      GatherForOneMore(rows, e, start, entity, LastFor(previous, entity), ListFor(lists, entity));
    }
  }

  /** What both queries owe an entity that is among the targets. */
  function FetchedFor(events: seq<ProbeEvent>, targets: seq<HistoryKey>, entity: HistoryKey, start: int,
                      end: int): seq<ProbeEvent> {
    if start < end && entity in targets && AvailabilityTarget(entity).Some?
    then Fetched(TargetLog(events, AvailabilityTarget(entity).value), start, end)
    else []
  }

  lemma GatheredIsFetched(events: seq<ProbeEvent>, targets: seq<HistoryKey>, wanted: seq<ProbeKey>, start: int,
                          end: int, previous: map<HistoryKey, ProbeEvent>, lists: map<HistoryKey, seq<ProbeEvent>>,
                          entity: HistoryKey)
    requires start < end && Gathered(BatchRows(events, wanted, end), start, previous, lists)
    requires forall k :: k in wanted <==> IsTargetOfQuery(targets, true, k)
    ensures FetchedFor(events, targets, entity, start, end)
         == LastFor(previous, entity) + ListFor(lists, entity)
  {
    assert GatheredFor(EntityPart(BatchRows(events, wanted, end), entity), start, LastFor(previous, entity),
                       ListFor(lists, entity));
    BatchRowsOfEntity(events, wanted, end, entity);
    if AvailabilityTarget(entity).Some? {
      HalvesAreFetched(TargetLog(events, AvailabilityTarget(entity).value), start, end);
    }
  }

  /** The loop over the rows of the batched query. */
  method GatherRows(rows: seq<ProbeEvent>, start: int)
    returns (previous: map<HistoryKey, ProbeEvent>, lists: map<HistoryKey, seq<ProbeEvent>>)
    ensures Gathered(rows, start, previous, lists)
  {
    previous, lists := map[], map[];
    for i := 0 to |rows|
      invariant Gathered(rows[..i], start, previous, lists)
    {
      var event := rows[i];
      assert rows[..i + 1] == rows[..i] + [event];
      GatherOneMore(rows[..i], event, start, previous, lists);
      var key := HistoryKey(event.target.kind, event.target.id);
      if event.changedAt < start {
        previous := previous[key := event];
        continue;
      }
      lists := lists[key := ListFor(lists, key) + [event]];
    }
    assert rows[..|rows|] == rows;
  }

  /** The loop that puts each entity's previous row in front, in whatever order the map is walked. */
  method PrependPrevious(previous: map<HistoryKey, ProbeEvent>, lists: map<HistoryKey, seq<ProbeEvent>>)
    returns (ret: map<HistoryKey, seq<ProbeEvent>>)
    ensures forall entity: HistoryKey :: ListFor(ret, entity) == LastFor(previous, entity) + ListFor(lists, entity)
  {
    ret := lists;
    var remaining := previous.Keys;
    while remaining != {}
      invariant remaining <= previous.Keys
      invariant forall entity: HistoryKey ::
                  ListFor(ret, entity)
                  == (if entity in remaining then [] else LastFor(previous, entity)) + ListFor(lists, entity)
      decreases remaining
    {
      var key :| key in remaining;
      remaining := remaining - {key};
      ret := ret[key := [previous[key]] + ListFor(ret, key)];
    }
  }

  // ---- Bounds of the windows

  method AvailabilityWindowBounds(windows: seq<Interval>) returns (start: int, end: int)
    ensures windows == [] ==> start == 0 && end == 0
    ensures forall w :: w in windows ==> start <= w.start && w.end <= end
    ensures windows != [] ==>
              (exists w :: w in windows && w.start == start) && (exists w :: w in windows && w.end == end)
  {
    if |windows| == 0 {
      return 0, 0;
    }
    start, end := windows[0].start, windows[0].end;
    assert windows[0] in windows;
    for i := 1 to |windows|
      invariant forall j :: 0 <= j < i ==> start <= windows[j].start && windows[j].end <= end
      invariant exists w :: w in windows && w.start == start
      invariant exists w :: w in windows && w.end == end
    {
      assert windows[i] in windows;
      if windows[i].start < start {
        start := windows[i].start;
      }
      if windows[i].end > end {
        end := windows[i].end;
      }
    }
  }
}
