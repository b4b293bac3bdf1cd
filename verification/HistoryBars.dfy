/**
  The history bars: one cell a day, coloured by the worst incident that touches the day, and in group bars a
  lane per entity inside every day. Incidents are applied in place, one after another.
*/
module HistoryBars {
  import opened Common
  import opened Outages

  datatype Severity = Operational | Maintenance | Outage

  /** The text and labels of an incident are opaque values here. */
  datatype IncidentView = IncidentView(text: string, url: string, startLabel: string, durationLabel: string)

  datatype Lane = Lane(key: HistoryKey, caption: string, state: Severity)

  /** A day of a bar as a value; `day` is its number in the local calendar. */
  datatype DayView = DayView(day: int, state: Severity, incidents: seq<IncidentView>, lanes: seq<Lane>)

  /** The local calendar: which day an instant falls on. */
  type Calendar = Instant -> int

  /** How the incident text is extended with the caption of its lane. */
  type Captioned = (IncidentView, string) -> IncidentView

  const DEFAULT_HISTORY_DAYS := 90

  /** One incident about to be applied on behalf of an entity. */
  datatype Application = Application(key: HistoryKey, startsAt: Instant, endsAt: Instant, severity: Severity,
                                     incident: IncidentView) {
    function End(): Instant {
      if endsAt == 0 || endsAt < startsAt then startsAt else endsAt
    }

    predicate Touches(day: int, localDay: Calendar) {
      && startsAt != 0
      && incident.text != ""
      && localDay(startsAt) <= day <= localDay(End())
    }
  }

  // ---- One application to one day

  function Raised(state: Severity, severity: Severity): Severity {
    if severity == Outage then Outage else if state != Outage then Maintenance else state
  }

  function WithIncident(incidents: seq<IncidentView>, incident: IncidentView): seq<IncidentView> {
    if incident in incidents then incidents else incidents + [incident]
  }

  function FirstLane(lanes: seq<Lane>, key: HistoryKey): (i: nat)
    ensures i <= |lanes|
    ensures forall j :: 0 <= j < i ==> lanes[j].key != key
    ensures i < |lanes| ==> lanes[i].key == key
  {
    if lanes == [] || lanes[0].key == key then 0 else 1 + FirstLane(lanes[1..], key)
  }

  function LanesRaised(lanes: seq<Lane>, key: HistoryKey, severity: Severity): seq<Lane> {
    var i := FirstLane(lanes, key);
    if i == |lanes| then lanes else lanes[i := lanes[i].(state := Raised(lanes[i].state, severity))]
  }

  function DayApplied(d: DayView, a: Application, localDay: Calendar): DayView {
    if a.Touches(d.day, localDay)
    then d.(state := Raised(d.state, a.severity), incidents := WithIncident(d.incidents, a.incident))
    else d
  }

  function LaneDayApplied(d: DayView, a: Application, localDay: Calendar, captioned: Captioned): DayView {
    var i := FirstLane(d.lanes, a.key);
    if a.Touches(d.day, localDay) && i < |d.lanes|
    then d.(lanes := LanesRaised(d.lanes, a.key, a.severity),
            state := Raised(d.state, a.severity),
            incidents := WithIncident(d.incidents, captioned(a.incident, d.lanes[i].caption)))
    else d
  }

  // ---- The bar itself

  /** A day as stored: its lanes are a slice of their own. */
  datatype HistoryDay = HistoryDay(day: int, state: Severity, incidents: seq<IncidentView>, lanes: array<Lane>)

  function WindowDays(days: int): (n: nat)
    ensures n > 0
  {
    if days <= 0 then DEFAULT_HISTORY_DAYS else days
  }

  /** The day on which a history of so many days, ending with the day of `now`, begins. */
  function HistoryStartDay(now: Instant, days: int, localDay: Calendar): int {
    localDay(now) - (WindowDays(days) - 1)
  }

  function FreshDay(day: int, lanes: seq<Lane>): DayView {
    DayView(day, Operational, [], lanes)
  }

  /** Days without incidents, one after another, the last of them the day of `now`; 90 of them unless told otherwise. */
  ghost predicate EndsToday(r: seq<DayView>, now: Instant, days: int, lanes: seq<Lane>, localDay: Calendar) {
    && |r| == (if days > 0 then days else 90)
    && forall i :: 0 <= i < |r| ==> r[i] == DayView(localDay(now) - (|r| - 1 - i), Operational, [], lanes)
  }

  function FreshDays(now: Instant, days: int, lanes: seq<Lane>, localDay: Calendar): seq<DayView> {
    seq(WindowDays(days), i requires 0 <= i < WindowDays(days) =>
      FreshDay(HistoryStartDay(now, days, localDay) + i, lanes))
  }

  lemma FreshDaysEndToday(now: Instant, days: int, lanes: seq<Lane>, localDay: Calendar)
    ensures EndsToday(FreshDays(now, days, lanes, localDay), now, days, lanes, localDay)
  {
    var r := FreshDays(now, days, lanes, localDay);
    forall i | 0 <= i < |r|
      ensures r[i] == DayView(localDay(now) - (|r| - 1 - i), Operational, [], lanes)
    {
      assert r[i] == FreshDay(HistoryStartDay(now, days, localDay) + i, lanes);
    }
  }

  method SetHistoryLaneSeverity(lanes: array<Lane>, key: HistoryKey, severity: Severity)
    returns (caption: string, ok: bool)
    modifies lanes
    ensures lanes[..] == LanesRaised(old(lanes[..]), key, severity)
    ensures ok <==> FirstLane(old(lanes[..]), key) < lanes.Length
    ensures ok ==> caption == old(lanes[..])[FirstLane(old(lanes[..]), key)].caption
  {
    ghost var was := lanes[..];
    for i := 0 to lanes.Length
      invariant lanes[..] == was
      invariant FirstLane(was, key) >= i
    {
      if lanes[i].key != key {
        continue;
      }
      if severity == Outage {
        lanes[i] := lanes[i].(state := Outage);
      } else if lanes[i].state != Outage {
        lanes[i] := lanes[i].(state := Maintenance);
      }
      assert lanes[..] == was[i := lanes[i]];
      return lanes[i].caption, true;
    }
    return "", false;
  }

  class HistoryBar {
    const days: array<HistoryDay>
    const lanes: seq<Lane>

    ghost predicate Valid()
      reads days
    {
      forall i, j :: 0 <= i < j < days.Length ==> days[i].lanes != days[j].lanes
    }

    ghost function LaneSlices(): set<object>
      reads days
    {
      set i | 0 <= i < days.Length :: days[i].lanes
    }

    ghost function DayAt(i: nat): DayView
      requires i < days.Length
      reads days, days[i].lanes
    {
      DayView(days[i].day, days[i].state, days[i].incidents, days[i].lanes[..])
    }

    ghost function Contents(): seq<DayView>
      reads days, LaneSlices()
    {
      seq(days.Length, i requires 0 <= i < days.Length reads days, LaneSlices() => DayAt(i))
    }

    constructor (now: Instant, dayCount: int, lanes: seq<Lane>, localDay: Calendar)
      ensures Valid() && fresh(days) && fresh(LaneSlices())
      ensures this.lanes == lanes
      ensures Contents() == FreshDays(now, dayCount, lanes, localDay)
      ensures EndsToday(Contents(), now, dayCount, lanes, localDay)
    {
      var n := WindowDays(dayCount);
      var start := HistoryStartDay(now, dayCount, localDay);
      var none := new Lane[0];
      var cells := new HistoryDay[n](_ => HistoryDay(0, Operational, [], none));
      this.lanes := lanes;
      this.days := cells;
      new;
      for i := 0 to n
        invariant forall j :: 0 <= j < i ==> fresh(cells[j].lanes) && cells[j].lanes != none
        invariant forall j, k :: 0 <= j < k < i ==> cells[j].lanes != cells[k].lanes
        invariant forall j :: 0 <= j < i ==>
                    cells[j] == HistoryDay(start + j, Operational, [], cells[j].lanes) && cells[j].lanes[..] == lanes
      {
        var clone := new Lane[|lanes|](k requires 0 <= k < |lanes| => lanes[k]);
        assert clone[..] == lanes;
        cells[i] := HistoryDay(start + i, Operational, [], clone);
      }
      forall i | 0 <= i < n
        ensures DayAt(i) == FreshDay(start + i, lanes)
      {
      }
      assert Contents() == FreshDays(now, dayCount, lanes, localDay);
      FreshDaysEndToday(now, dayCount, lanes, localDay);
    }

    method ApplyHistoryIncident(a: Application, localDay: Calendar)
      requires Valid()
      modifies days
      ensures Valid() && LaneSlices() == old(LaneSlices())
      ensures |Contents()| == |old(Contents())|
      ensures forall i :: 0 <= i < |Contents()| ==> Contents()[i] == DayApplied(old(Contents())[i], a, localDay)
    {
      if a.startsAt == 0 || a.incident.text == "" {
        return;
      }
      var endsAt := a.endsAt;
      if endsAt == 0 || endsAt < a.startsAt {
        endsAt := a.startsAt;
      }
      var startDay, endDay := localDay(a.startsAt), localDay(endsAt);
      for i := 0 to days.Length
        invariant forall j :: 0 <= j < days.Length ==> days[j].lanes == old(days[j].lanes)
        invariant forall j :: i <= j < days.Length ==> days[j] == old(days[j])
        invariant forall j :: 0 <= j < i ==> DayAt(j) == DayApplied(old(DayAt(j)), a, localDay)
      {
        if days[i].day < startDay || days[i].day > endDay {
          continue;
        }
        if a.severity == Outage {
          days[i] := days[i].(state := Outage);
        } else if days[i].state != Outage {
          days[i] := days[i].(state := Maintenance);
        }
        if a.incident !in days[i].incidents {
          days[i] := days[i].(incidents := days[i].incidents + [a.incident]);
        }
      }
    }

    /** The lane half of the loop body: one day that the incident touches. */
    method RaiseLaneOfDay(i: nat, a: Application, localDay: Calendar, captioned: Captioned)
      requires Valid() && i < days.Length
      requires a.Touches(days[i].day, localDay)
      modifies days, days[i].lanes
      ensures days[i].lanes == old(days[i].lanes)
      ensures forall j :: 0 <= j < days.Length && j != i ==> days[j] == old(days[j])
      ensures DayAt(i) == LaneDayApplied(old(DayAt(i)), a, localDay, captioned)
    {
      var caption, ok := SetHistoryLaneSeverity(days[i].lanes, a.key, a.severity);
      if !ok {
        return;
      }
      if a.severity == Outage {
        days[i] := days[i].(state := Outage);
      } else if days[i].state != Outage {
        days[i] := days[i].(state := Maintenance);
      }
      var laneIncident := captioned(a.incident, caption);
      if laneIncident !in days[i].incidents {
        days[i] := days[i].(incidents := days[i].incidents + [laneIncident]);
      }
    }

    method ApplyHistoryIncidentToLane(a: Application, localDay: Calendar, captioned: Captioned)
      requires Valid()
      modifies days, LaneSlices()
      ensures Valid() && LaneSlices() == old(LaneSlices())
      ensures |Contents()| == |old(Contents())|
      ensures forall i :: 0 <= i < |Contents()| ==>
                Contents()[i] == if lanes == [] then DayApplied(old(Contents())[i], a, localDay)
                                 else LaneDayApplied(old(Contents())[i], a, localDay, captioned)
    {
      if a.startsAt == 0 || a.incident.text == "" {
        return;
      }
      if |lanes| == 0 {
        ApplyHistoryIncident(a, localDay);
        return;
      }
      var endsAt := a.endsAt;
      if endsAt == 0 || endsAt < a.startsAt {
        endsAt := a.startsAt;
      }
      var startDay, endDay := localDay(a.startsAt), localDay(endsAt);
      for i := 0 to days.Length
        invariant Valid()
        invariant forall j :: 0 <= j < days.Length ==> days[j].lanes == old(days[j].lanes)
        invariant forall j :: i <= j < days.Length ==> DayAt(j) == old(DayAt(j))
        invariant forall j :: 0 <= j < i ==> DayAt(j) == LaneDayApplied(old(DayAt(j)), a, localDay, captioned)
      {
        if days[i].day < startDay || days[i].day > endDay {
          continue;
        }
        assert days[i].lanes in LaneSlices();
        RaiseLaneOfDay(i, a, localDay, captioned);
      }
    }
  }
}
