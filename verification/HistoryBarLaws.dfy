/** What a history bar shows after any list of incidents, whatever the order they were applied in. */
module HistoryBarLaws {
  import opened Outages
  import opened HistoryBars
  import Sorting

  function DayAfter(d: DayView, apps: seq<Application>, localDay: Calendar): DayView {
    if apps == [] then d
    else DayApplied(DayAfter(d, apps[..|apps| - 1], localDay), apps[|apps| - 1], localDay)
  }

  function LaneDayAfter(d: DayView, apps: seq<Application>, localDay: Calendar, captioned: Captioned): DayView {
    if apps == [] then d
    else LaneDayApplied(LaneDayAfter(d, apps[..|apps| - 1], localDay, captioned), apps[|apps| - 1], localDay, captioned)
  }

  // ---- Entity bars

  ghost predicate SomeTouches(apps: seq<Application>, day: int, localDay: Calendar) {
    exists a :: a in apps && a.Touches(day, localDay)
  }

  ghost predicate SomeOutageTouches(apps: seq<Application>, day: int, localDay: Calendar) {
    exists a :: a in apps && a.Touches(day, localDay) && a.severity == Outage
  }

  /** The worst severity among the incidents that touch the day; anything but an outage counts as maintenance. */
  ghost function Worst(apps: seq<Application>, day: int, localDay: Calendar): Severity {
    if SomeOutageTouches(apps, day, localDay) then Outage
    else if SomeTouches(apps, day, localDay) then Maintenance
    else Operational
  }

  lemma WorstOfOneMore(apps: seq<Application>, a: Application, day: int, localDay: Calendar)
    ensures Worst(apps + [a], day, localDay)
         == if a.Touches(day, localDay) then Raised(Worst(apps, day, localDay), a.severity)
           else Worst(apps, day, localDay)
  {
  }

  /**
    A fresh day, after any list of incidents: its state is the worst severity that touched it, and its list
    holds each incident that touched it exactly once.
  */
  lemma {:induction false} DayShowsItsIncidents(d: DayView, apps: seq<Application>, localDay: Calendar)
    requires d.state == Operational && d.incidents == []
    ensures var r := DayAfter(d, apps, localDay);
            && r.day == d.day && r.lanes == d.lanes
            && r.state == Worst(apps, d.day, localDay)
            && Sorting.Unique(r.incidents)
            && forall inc :: inc in r.incidents <==>
              exists a :: a in apps && a.Touches(d.day, localDay) && a.incident == inc
  {
    if apps == [] {
    } else {
      var p, a := apps[..|apps| - 1], apps[|apps| - 1];
      DayShowsItsIncidents(d, p, localDay);
      WorstOfOneMore(p, a, d.day, localDay);
      assert apps == p + [a];
      assert forall x :: x in apps <==> x in p || x == a;
    }
  }

  /** What is listed stays where it is: later incidents are listed after earlier ones. */
  lemma {:induction false} LaterIncidentsComeLater(d: DayView, apps: seq<Application>, more: seq<Application>,
                                                   localDay: Calendar)
    ensures DayAfter(d, apps, localDay).incidents <= DayAfter(d, apps + more, localDay).incidents
  {
    if more == [] {
      assert apps + more == apps;
    } else {
      var p := more[..|more| - 1];
      LaterIncidentsComeLater(d, apps, p, localDay);
      assert (apps + more)[..|apps + more| - 1] == apps + p;
    }
  }

  /** Same day, state, lanes and incidents, the incidents in some order. */
  ghost predicate SameDay(a: DayView, b: DayView) {
    a.day == b.day && a.state == b.state && a.lanes == b.lanes && multiset(a.incidents) == multiset(b.incidents)
  }

  /** States and incident sets depend only on which incidents were applied, not on their order or repetition. */
  lemma DayIgnoresOrder(d: DayView, apps: seq<Application>, apps': seq<Application>, localDay: Calendar)
    requires d.state == Operational && d.incidents == []
    requires forall a :: a in apps <==> a in apps'
    ensures var r, r' := DayAfter(d, apps, localDay), DayAfter(d, apps', localDay);
            SameDay(r, r') && forall inc :: inc in r.incidents <==> inc in r'.incidents
  {
    DayShowsItsIncidents(d, apps, localDay);
    DayShowsItsIncidents(d, apps', localDay);
    var r, r' := DayAfter(d, apps, localDay), DayAfter(d, apps', localDay);
    assert forall inc :: inc in r.incidents <==> inc in r'.incidents;
    UniqueWithSameMembers(r.incidents, r'.incidents);
  }

  lemma UniqueWithSameMembers(s: seq<IncidentView>, t: seq<IncidentView>)
    requires Sorting.Unique(s) && Sorting.Unique(t)
    requires forall x :: x in s <==> x in t
    ensures multiset(s) == multiset(t)
  {
    Sorting.UniqueIffMultiplicityOne(s);
    Sorting.UniqueIffMultiplicityOne(t);
    forall x
      ensures multiset(s)[x] == multiset(t)[x]
    {
      assert x in s <==> x in multiset(s);
      assert x in t <==> x in multiset(t);
    }
  }

  // ---- Group bars

  ghost predicate IsFreshLaneDay(d: DayView) {
    && d.state == Operational && d.incidents == [] && d.lanes != []
    && forall i :: 0 <= i < |d.lanes| ==> d.lanes[i].state == Operational
  }

  ghost predicate SameLanes(lanes: seq<Lane>, lanes': seq<Lane>) {
    && |lanes| == |lanes'|
    && forall i :: 0 <= i < |lanes| ==> lanes[i].key == lanes'[i].key && lanes[i].caption == lanes'[i].caption
  }

  lemma FirstLaneByKeys(lanes: seq<Lane>, lanes': seq<Lane>, key: HistoryKey)
    requires SameLanes(lanes, lanes')
    ensures FirstLane(lanes, key) == FirstLane(lanes', key)
  {
  }

  function OfKey(key: HistoryKey): Application -> bool {
    (a: Application) => a.key == key
  }

  /** The applications made on behalf of one entity, in order. */
  function AppsOf(apps: seq<Application>, key: HistoryKey): seq<Application> {
    Sorting.Selected(OfKey(key), apps)
  }

  /** Lane i is the one its key finds, and shows the worst of the incidents applied under that key. */
  ghost predicate LaneShowsItsIncidents(lanes: seq<Lane>, i: nat, apps: seq<Application>, day: int, localDay: Calendar)
    requires i < |lanes|
  {
    lanes[i].state ==
      if FirstLane(lanes, lanes[i].key) == i then Worst(AppsOf(apps, lanes[i].key), day, localDay) else Operational
  }

  lemma LanesOfOneMore(before: seq<Lane>, apps: seq<Application>, a: Application, day: int, localDay: Calendar)
    requires forall i :: 0 <= i < |before| ==> LaneShowsItsIncidents(before, i, apps, day, localDay)
    ensures var after := if a.Touches(day, localDay) then LanesRaised(before, a.key, a.severity) else before;
            && SameLanes(before, after)
            && forall i :: 0 <= i < |after| ==> LaneShowsItsIncidents(after, i, apps + [a], day, localDay)
  {
    var after := if a.Touches(day, localDay) then LanesRaised(before, a.key, a.severity) else before;
    forall i | 0 <= i < |after|
      ensures LaneShowsItsIncidents(after, i, apps + [a], day, localDay)
    {
      var key := after[i].key;
      assert LaneShowsItsIncidents(before, i, apps, day, localDay);
      FirstLaneByKeys(before, after, key);
      Sorting.SelectedAppend(OfKey(key), apps, a);
      WorstOfOneMore(AppsOf(apps, key), a, day, localDay);
    }
  }

  /** The worst state among the lanes. */
  ghost predicate IsWorstLane(state: Severity, lanes: seq<Lane>) {
    match state
    case Outage => exists i :: 0 <= i < |lanes| && lanes[i].state == Outage
    case Maintenance =>
      && (exists i :: 0 <= i < |lanes| && lanes[i].state == Maintenance)
      && (forall i :: 0 <= i < |lanes| ==> lanes[i].state != Outage)
    case Operational => forall i :: 0 <= i < |lanes| ==> lanes[i].state == Operational
  }

  lemma WorstLaneAfterRaise(state: Severity, lanes: seq<Lane>, key: HistoryKey, severity: Severity)
    requires IsWorstLane(state, lanes) && FirstLane(lanes, key) < |lanes|
    ensures IsWorstLane(Raised(state, severity), LanesRaised(lanes, key, severity))
  {
    var f := FirstLane(lanes, key);
    var after := LanesRaised(lanes, key, severity);
    assert after[f].state == Raised(lanes[f].state, severity);
    assert forall i :: 0 <= i < |lanes| && i != f ==> after[i] == lanes[i];
  }

  /** Day r is day d after the applications: each lane at its worst, the day at its worst lane, no incident twice. */
  ghost predicate LaneDayShows(d: DayView, r: DayView, apps: seq<Application>, localDay: Calendar) {
    && r.day == d.day
    && SameLanes(d.lanes, r.lanes)
    && (forall i :: 0 <= i < |r.lanes| ==> LaneShowsItsIncidents(r.lanes, i, apps, d.day, localDay))
    && IsWorstLane(r.state, r.lanes)
    && Sorting.Unique(r.incidents)
  }

  lemma LaneDayAfterOneMore(d: DayView, before: DayView, apps: seq<Application>, a: Application, localDay: Calendar,
                            captioned: Captioned)
    requires LaneDayShows(d, before, apps, localDay)
    ensures LaneDayShows(d, LaneDayApplied(before, a, localDay, captioned), apps + [a], localDay)
  {
    LanesOfOneMore(before.lanes, apps, a, d.day, localDay);
    if FirstLane(before.lanes, a.key) < |before.lanes| {
      WorstLaneAfterRaise(before.state, before.lanes, a.key, a.severity);
    }
  }

  /**
    A fresh day with lanes, after any list of incidents: every lane shows the worst of its own entity's
    incidents, and the day the worst of its lanes.
  */
  lemma {:induction false} LaneDayShowsItsIncidents(d: DayView, apps: seq<Application>, localDay: Calendar,
                                                    captioned: Captioned)
    requires IsFreshLaneDay(d)
    ensures LaneDayShows(d, LaneDayAfter(d, apps, localDay, captioned), apps, localDay)
  {
    if apps == [] {
    } else {
      var p, a := apps[..|apps| - 1], apps[|apps| - 1];
      assert apps == p + [a];
      LaneDayShowsItsIncidents(d, p, localDay, captioned);
      LaneDayAfterOneMore(d, LaneDayAfter(d, p, localDay, captioned), p, a, localDay, captioned);
    }
  }

  /** The incident a touches a day that has a lane for it, and reads `inc` there. */
  ghost predicate ReadsAs(a: Application, d: DayView, inc: IncidentView, localDay: Calendar, captioned: Captioned) {
    var i := FirstLane(d.lanes, a.key);
    a.Touches(d.day, localDay) && i < |d.lanes| && inc == captioned(a.incident, d.lanes[i].caption)
  }

  ghost predicate SomeReadsAs(apps: seq<Application>, d: DayView, inc: IncidentView, localDay: Calendar,
                              captioned: Captioned) {
    exists a :: a in apps && ReadsAs(a, d, inc, localDay, captioned)
  }

  lemma ReadsAsBySameLanes(a: Application, d: DayView, d': DayView, inc: IncidentView, localDay: Calendar,
                           captioned: Captioned)
    requires d.day == d'.day && SameLanes(d.lanes, d'.lanes)
    ensures ReadsAs(a, d, inc, localDay, captioned) <==> ReadsAs(a, d', inc, localDay, captioned)
  {
  }

  /** The group's list of a day: the captioned incidents of the entities that have a lane. */
  lemma {:induction false} LaneDayListsItsIncidents(d: DayView, apps: seq<Application>, localDay: Calendar,
                                                    captioned: Captioned, inc: IncidentView)
    requires IsFreshLaneDay(d)
    ensures inc in LaneDayAfter(d, apps, localDay, captioned).incidents <==>
              SomeReadsAs(apps, d, inc, localDay, captioned)
  {
    if apps == [] {
    } else {
      var p, a := apps[..|apps| - 1], apps[|apps| - 1];
      assert apps == p + [a];
      assert forall x :: x in apps <==> x in p || x == a;
      LaneDayListsItsIncidents(d, p, localDay, captioned, inc);
      LaneDayShowsItsIncidents(d, p, localDay, captioned);
      ReadsAsBySameLanes(a, d, LaneDayAfter(d, p, localDay, captioned), inc, localDay, captioned);
    }
  }

  lemma WorstOfSameSet(apps: seq<Application>, apps': seq<Application>, day: int, localDay: Calendar)
    requires forall a :: a in apps <==> a in apps'
    ensures Worst(apps, day, localDay) == Worst(apps', day, localDay)
  {
  }

  lemma WorstLaneIsUnique(a: Severity, b: Severity, lanes: seq<Lane>)
    requires IsWorstLane(a, lanes) && IsWorstLane(b, lanes) && lanes != []
    ensures a == b
  {
  }

  lemma LanesIgnoreOrder(d: DayView, apps: seq<Application>, apps': seq<Application>, localDay: Calendar,
                         captioned: Captioned)
    requires IsFreshLaneDay(d) && forall a :: a in apps <==> a in apps'
    ensures LaneDayAfter(d, apps, localDay, captioned).lanes == LaneDayAfter(d, apps', localDay, captioned).lanes
  {
    var r, r' := LaneDayAfter(d, apps, localDay, captioned), LaneDayAfter(d, apps', localDay, captioned);
    LaneDayShowsItsIncidents(d, apps, localDay, captioned);
    LaneDayShowsItsIncidents(d, apps', localDay, captioned);
    forall i | 0 <= i < |d.lanes|
      ensures r.lanes[i] == r'.lanes[i]
    {
      var key := d.lanes[i].key;
      FirstLaneByKeys(r.lanes, r'.lanes, key);
      Sorting.SelectedMembers(OfKey(key), apps);
      Sorting.SelectedMembers(OfKey(key), apps');
      WorstOfSameSet(AppsOf(apps, key), AppsOf(apps', key), d.day, localDay);
      assert LaneShowsItsIncidents(r.lanes, i, apps, d.day, localDay);
      assert LaneShowsItsIncidents(r'.lanes, i, apps', d.day, localDay);
    }
  }

  /** Days with lanes, too, depend only on which incidents were applied. */
  lemma LaneDayIgnoresOrder(d: DayView, apps: seq<Application>, apps': seq<Application>, localDay: Calendar,
                            captioned: Captioned)
    requires IsFreshLaneDay(d)
    requires forall a :: a in apps <==> a in apps'
    ensures var r, r' := LaneDayAfter(d, apps, localDay, captioned), LaneDayAfter(d, apps', localDay, captioned);
            SameDay(r, r')
  {
    var r, r' := LaneDayAfter(d, apps, localDay, captioned), LaneDayAfter(d, apps', localDay, captioned);
    LaneDayShowsItsIncidents(d, apps, localDay, captioned);
    LaneDayShowsItsIncidents(d, apps', localDay, captioned);
    LanesIgnoreOrder(d, apps, apps', localDay, captioned);
    WorstLaneIsUnique(r.state, r'.state, r.lanes);
    forall inc
      ensures inc in r.incidents <==> inc in r'.incidents
    {
      LaneDayListsItsIncidents(d, apps, localDay, captioned, inc);
      LaneDayListsItsIncidents(d, apps', localDay, captioned, inc);
    }
    UniqueWithSameMembers(r.incidents, r'.incidents);
  }
}
