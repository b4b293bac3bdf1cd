/** The views of history agree: an entity's bar with its lane, and a group's bar on demand with that of the batch. */
module ViewAgreement {
  import opened Outages
  import opened HistoryBars
  import opened HistoryBarLaws
  import opened HistoryViews
  import opened HistoryBatch
  import opened Coverage
  import Sorting

  // ---- Lanes and members of a group

  ghost predicate UniqueLocationIds(config: Config) {
    forall a, b :: a in config.locations && b in config.locations && a.id == b.id ==> a == b
  }

  ghost predicate AreOperationalLanes(lanes: seq<Lane>) {
    forall i :: 0 <= i < |lanes| ==> lanes[i].state == Operational
  }

  /** The lanes of a group's bar, in the batch or on demand. */
  predicate AreGroupLanes(config: Config, archived: seq<ArchivedNode>, g: GroupTarget, lanes: seq<Lane>) {
    lanes == BatchLanes(config, archived, g) || lanes == DemandLanes(config, archived, g)
  }

  lemma GroupLanesAreOperational(config: Config, archived: seq<ArchivedNode>, g: GroupTarget, lanes: seq<Lane>)
    requires AreGroupLanes(config, archived, g, lanes)
    ensures AreOperationalLanes(lanes)
  {
  }

  /** A group has lanes for entities that belong to it, and with unique location ids for all of these. */
  lemma GroupHasLaneIffBelongs(config: Config, archived: seq<ArchivedNode>, g: GroupTarget, lanes: seq<Lane>,
                               key: HistoryKey)
    requires AreGroupLanes(config, archived, g, lanes)
    ensures HasLane(lanes, key) ==> Belongs(config, archived, key, g)
    ensures UniqueLocationIds(config) && IsGroup(config, g) ==>
              (HasLane(lanes, key) <==> Belongs(config, archived, key, g))
  {
    match g {
      case VpsAdminGroup => LanesForKeys(VpsAdminKey, VPSADMIN_SERVICES, key);
      case ServicesGroup =>
        HasLaneConcat(LanesFor(WebKey, config.web), LanesFor(NameServerKey, config.nameServers), key);
        LanesForKeys(WebKey, config.web, key);
        LanesForKeys(NameServerKey, config.nameServers, key);
      case LocationGroup(id) =>
        if IsGroup(config, g) {
          LocationLanesKeys(LastLocation(config.locations, id).value, archived, key);
          LocationLanesKeys(FirstLocation(config.locations, id).value, archived, key);
        }
    }
  }

  /** Every configured entity belongs to a group that exists. */
  lemma EveryEntityHasAGroup(config: Config, archived: seq<ArchivedNode>, key: HistoryKey) returns (g: GroupTarget)
    requires IsConfigured(config, key)
    ensures Belongs(config, archived, key, g) && IsGroup(config, g)
  {
    if key.kind == ENTITY_VPSADMIN && key.id in VPSADMIN_SERVICES {
      g := VpsAdminGroup;
    } else if loc :| loc in config.locations && InLocation(loc, key) {
      g := LocationGroup(loc.id);
    } else {
      g := ServicesGroup;
    }
  }

  // ---- An entity's bar and its lane

  lemma {:induction false} ReportAppsMembers(data: HistoryData, n: nat, key: HistoryKey, a: Application)
    requires n <= |data.reports|
    ensures a in ReportApps(data, n, key) <==>
              exists r :: r in data.reports[..n] && key in data.keysOf(r) && a == ReportApplication(data, r, key)
  {
    if n > 0 {
      ReportAppsMembers(data, n - 1, key, a);
      assert data.reports[..n] == data.reports[..n - 1] + [data.reports[n - 1]];
    }
  }

  lemma {:induction false} IncidentAppsMembers(data: HistoryData, n: nat, key: HistoryKey, a: Application)
    requires n <= |data.incidents|
    ensures a in IncidentApps(data, n, key) <==>
              exists x :: x in data.incidents[..n] && EntityKey(x.target) == key && a == IncidentApplication(data, x)
  {
    if n > 0 {
      IncidentAppsMembers(data, n - 1, key, a);
      assert data.incidents[..n] == data.incidents[..n - 1] + [data.incidents[n - 1]];
    }
  }

  ghost predicate IsReportApp(data: HistoryData, key: HistoryKey, a: Application) {
    exists r :: r in data.reports && key in data.keysOf(r) && a == ReportApplication(data, r, key)
  }

  ghost predicate IsIncidentApp(data: HistoryData, key: HistoryKey, a: Application) {
    exists x :: x in data.incidents && EntityKey(x.target) == key && a == IncidentApplication(data, x)
  }

  lemma EntityAppsMembers(data: HistoryData, key: HistoryKey, a: Application)
    ensures a in EntityApps(data, key) <==> IsReportApp(data, key, a) || IsIncidentApp(data, key, a)
  {
    ReportAppsMembers(data, |data.reports|, key, a);
    IncidentAppsMembers(data, |data.incidents|, key, a);
    assert data.reports[..|data.reports|] == data.reports && data.incidents[..|data.incidents|] == data.incidents;
  }

  /** Day d of the entity's bar is the right day and has this state. */
  ghost predicate EntityDayIs(data: HistoryData, key: HistoryKey, d: nat, state: Severity) {
    var own := EntityBar(data, key);
    && |own.days| == (if data.days > 0 then data.days else 90) && d < |own.days|
    && own.days[d].day == DayNumber(data, d) && own.days[d].state == state
  }

  /** Day d of an entity's bar. */
  lemma EntityBarDay(data: HistoryData, key: HistoryKey, d: nat)
    requires d < WindowDays(data.days)
    ensures EntityDayIs(data, key, d, Worst(EntityApps(data, key), DayNumber(data, d), data.localDay))
  {
    DaysAreNumbered(data, d);
    BarAfterHasDays(data, [], EntityApps(data, key));
    assert EntityBar(data, key).days[d] == DayOfBar(data, [], EntityApps(data, key), d);
    DayShowsItsIncidents(FreshDay(FirstDay(data) + d, []), EntityApps(data, key),
                         data.localDay);
  }

  /** What lane i of a group ought to show on a day: the worst of its own entity's incidents. */
  ghost function ExpectedLane(lanes: seq<Lane>, config: Config, archived: seq<ArchivedNode>, data: HistoryData,
                              g: GroupTarget, day: int, i: nat): Severity
    requires i < |lanes|
  {
    var key := lanes[i].key;
    if FirstLane(lanes, key) == i && Belongs(config, archived, key, g)
    then Worst(EntityApps(data, key), day, data.localDay) else Operational
  }

  /** Lane i of day d of a group's bar. */
  lemma GroupBarLane(lanes: seq<Lane>, config: Config, archived: seq<ArchivedNode>, data: HistoryData, g: GroupTarget,
                     group: BarView, d: nat, i: nat)
    requires AreOperationalLanes(lanes) && ShowsGroup(group, data, lanes, config, archived, g)
    requires d < WindowDays(data.days) && i < |lanes|
    ensures |group.days| == WindowDays(data.days) && |group.days[d].lanes| == |lanes|
    ensures group.days[d].day == FirstDay(data) + d
    ensures group.days[d].lanes[i] ==
              lanes[i].(state := ExpectedLane(lanes, config, archived, data, g,
                                              FirstDay(data) + d, i))
  {
    var apps :| HasDays(group, data, lanes, apps) && GivenToMembers(apps, data, config, archived, g);
    LaneOfBarDay(lanes, config, archived, data, g, apps, d, group.days[d], i);
  }

  lemma LaneOfBarDay(lanes: seq<Lane>, config: Config, archived: seq<ArchivedNode>, data: HistoryData, g: GroupTarget,
                     apps: seq<Application>, d: nat, r: DayView, i: nat)
    requires AreOperationalLanes(lanes) && i < |lanes|
    requires GivenToMembers(apps, data, config, archived, g)
    requires r == DayOfBar(data, lanes, apps, d)
    ensures var day := FirstDay(data) + d;
            && r.day == day && |r.lanes| == |lanes|
            && r.lanes[i] == lanes[i].(state := ExpectedLane(lanes, config, archived, data, g, day, i))
  {
    DayOfLaneBar(data, lanes, apps, d);
    var fresh0 := FreshDay(FirstDay(data) + d, lanes);
    LaneDayShowsItsIncidents(fresh0, apps, data.localDay, data.captioned);
    LaneOfKey(fresh0, r.lanes, apps, config, archived, data, g, i);
  }

  lemma LaneOfKey(d: DayView, r: seq<Lane>, apps: seq<Application>, config: Config, archived: seq<ArchivedNode>,
                  data: HistoryData, g: GroupTarget, i: nat)
    requires SameLanes(d.lanes, r) && i < |r| && LaneShowsItsIncidents(r, i, apps, d.day, data.localDay)
    requires GivenToMembers(apps, data, config, archived, g)
    ensures r[i].state ==
              if FirstLane(d.lanes, d.lanes[i].key) == i && Belongs(config, archived, d.lanes[i].key, g)
              then Worst(EntityApps(data, d.lanes[i].key), d.day, data.localDay) else Operational
  {
    FirstLaneByKeys(d.lanes, r, r[i].key);
    GivenOfKey(apps, config, archived, data, g, d.lanes[i].key, d.day);
  }

  lemma GivenOfKey(apps: seq<Application>, config: Config, archived: seq<ArchivedNode>, data: HistoryData,
                   g: GroupTarget, key: HistoryKey, day: int)
    requires GivenToMembers(apps, data, config, archived, g)
    ensures Worst(AppsOf(apps, key), day, data.localDay)
         == if Belongs(config, archived, key, g) then Worst(EntityApps(data, key), day, data.localDay) else Operational
  {
    Sorting.SelectedMembers(OfKey(key), apps);
    forall a | a in EntityApps(data, key)
      ensures a.key == key
    {
      EntityAppsMembers(data, key, a);
    }
    var own := AppsOf(apps, key);
    assert forall a :: a in own <==> Belongs(config, archived, key, g) && a in EntityApps(data, key);
    if Belongs(config, archived, key, g) {
      WorstOfSameSet(own, EntityApps(data, key), day, data.localDay);
    }
  }

  /** On day d the group's bar has a lane of the entity that shows what the entity's own bar shows. */
  ghost predicate LaneShowsEntity(data: HistoryData, key: HistoryKey, group: BarView, d: nat) {
    var own := EntityBar(data, key);
    && d < |own.days| && d < |group.days|
    && own.days[d].day == group.days[d].day
    && exists i :: 0 <= i < |group.days[d].lanes|
                   && group.days[d].lanes[i].key == key && group.days[d].lanes[i].state == own.days[d].state
  }

  lemma LaneIsInGroup(config: Config, archived: seq<ArchivedNode>, data: HistoryData, g: GroupTarget,
                      lanes: seq<Lane>, key: HistoryKey, group: BarView, d: nat)
    requires AreGroupLanes(config, archived, g, lanes) && ShowsGroup(group, data, lanes, config, archived, g)
    requires d < WindowDays(data.days) && LaneShowsEntity(data, key, group, d)
    ensures HasLane(lanes, key)
  {
    var i :| 0 <= i < |group.days[d].lanes| && group.days[d].lanes[i].key == key;
    GroupLanesAreOperational(config, archived, g, lanes);
    GroupBarHasLanes(lanes, config, archived, data, g, group, d);
    assert lanes[i].key == key;
  }

  /**
    For any configuration, a group's bar, in the batch or on demand, shows on every day what an entity's own bar
    shows, exactly if the group has a lane for it: entity page, group page and front page agree.
  */
  lemma EntityBarAgreesExactlyWithLane(config: Config, archived: seq<ArchivedNode>, data: HistoryData, g: GroupTarget,
                                       lanes: seq<Lane>, key: HistoryKey, group: BarView, d: nat)
    requires AreGroupLanes(config, archived, g, lanes) && ShowsGroup(group, data, lanes, config, archived, g)
    requires d < WindowDays(data.days)
    ensures LaneShowsEntity(data, key, group, d) <==> HasLane(lanes, key)
  {
    if HasLane(lanes, key) {
      GroupHasLaneIffBelongs(config, archived, g, lanes, key);
      GroupLanesAreOperational(config, archived, g, lanes);
      EntityBarDay(data, key, d);
      GroupBarLane(lanes, config, archived, data, g, group, d, FirstLane(lanes, key));
    }
    if LaneShowsEntity(data, key, group, d) {
      LaneIsInGroup(config, archived, data, g, lanes, key, group, d);
    }
  }

  /** So with unique location ids every entity of a group is shown alike by its own bar and its lane. */
  lemma EntityBarAgreesWithGroupLane(config: Config, archived: seq<ArchivedNode>, data: HistoryData, g: GroupTarget,
                                     lanes: seq<Lane>, key: HistoryKey, group: BarView, d: nat)
    requires UniqueLocationIds(config) && IsGroup(config, g) && AreGroupLanes(config, archived, g, lanes)
    requires ShowsGroup(group, data, lanes, config, archived, g)
    requires Belongs(config, archived, key, g)
    requires d < WindowDays(data.days)
    ensures LaneShowsEntity(data, key, group, d)
  {
    GroupHasLaneIffBelongs(config, archived, g, lanes, key);
    EntityBarAgreesExactlyWithLane(config, archived, data, g, lanes, key, group, d);
  }

  /** Every day of a group's bar has the group's lanes. */
  lemma GroupBarHasLanes(lanes: seq<Lane>, config: Config, archived: seq<ArchivedNode>, data: HistoryData,
                         g: GroupTarget, group: BarView, d: nat)
    requires AreOperationalLanes(lanes) && ShowsGroup(group, data, lanes, config, archived, g)
    requires d < WindowDays(data.days)
    ensures |group.days| == WindowDays(data.days) && SameLanes(lanes, group.days[d].lanes)
  {
    var apps :| HasDays(group, data, lanes, apps) && GivenToMembers(apps, data, config, archived, g);
    var start := FreshDay(FirstDay(data) + d, lanes);
    if lanes == [] {
      DayShowsItsIncidents(start, apps, data.localDay);
    } else {
      LaneDayShowsItsIncidents(start, apps, data.localDay, data.captioned);
    }
  }

  // ---- A group's bar in the batch and on demand

  ghost predicate SameBars(a: BarView, b: BarView) {
    |a.days| == |b.days| && forall d :: 0 <= d < |a.days| ==> SameDay(a.days[d], b.days[d])
  }

  lemma SameLanesSameBars(lanes: seq<Lane>, config: Config, archived: seq<ArchivedNode>, data: HistoryData,
                          g: GroupTarget, a: BarView, b: BarView)
    requires AreOperationalLanes(lanes)
    requires ShowsGroup(a, data, lanes, config, archived, g) && ShowsGroup(b, data, lanes, config, archived, g)
    ensures SameBars(a, b)
  {
    var apps :| HasDays(a, data, lanes, apps) && GivenToMembers(apps, data, config, archived, g);
    var apps' :| HasDays(b, data, lanes, apps') && GivenToMembers(apps', data, config, archived, g);
    forall d | 0 <= d < |a.days|
      ensures SameDay(a.days[d], b.days[d])
    {
      if lanes == [] {
        SameAppsSamePlainDay(data, apps, apps', d);
      } else {
        SameAppsSameLaneDay(data, lanes, apps, apps', d);
      }
    }
  }

  lemma SameAppsSamePlainDay(data: HistoryData, apps: seq<Application>, apps': seq<Application>, d: int)
    requires forall a :: a in apps <==> a in apps'
    ensures SameDay(DayOfBar(data, [], apps, d), DayOfBar(data, [], apps', d))
  {
    DayOfPlainBar(data, apps, d);
    DayOfPlainBar(data, apps', d);
    DayIgnoresOrder(FreshDay(FirstDay(data) + d, []), apps, apps', data.localDay);
  }

  lemma SameAppsSameLaneDay(data: HistoryData, lanes: seq<Lane>, apps: seq<Application>, apps': seq<Application>,
                            d: int)
    requires lanes != [] && AreOperationalLanes(lanes) && forall a :: a in apps <==> a in apps'
    ensures SameDay(DayOfBar(data, lanes, apps, d), DayOfBar(data, lanes, apps', d))
  {
    DayOfLaneBar(data, lanes, apps, d);
    DayOfLaneBar(data, lanes, apps', d);
    LaneDayIgnoresOrder(FreshDay(FirstDay(data) + d, lanes), apps, apps', data.localDay, data.captioned);
  }

  lemma LaneKinds(loc: Location, archived: seq<ArchivedNode>, i: nat)
    requires i < |LocationLanes(loc, archived)|
    ensures var n, lane := |loc.nodes| + |ArchivedLanes(archived, loc.id)|, LocationLanes(loc, archived)[i];
            && lane.key.kind == (if i < n then ENTITY_NODE else ENTITY_DNS_RESOLVER)
            && (i < |loc.nodes| ==> lane.key.id == loc.nodes[i])
            && (i >= n ==> i - n < |loc.resolvers| && lane.key.id == loc.resolvers[i - n])
  {
    var a, b, c := LanesFor(NodeKey, loc.nodes), ArchivedLanes(archived, loc.id), LanesFor(ResolverKey, loc.resolvers);
    if i < |a| {
      assert (a + b + c)[i] == a[i] == Lane(NodeKey(loc.nodes[i]), loc.nodes[i], Operational);
    } else if i < |a| + |b| {
      assert (a + b + c)[i] == b[i - |a|];
    } else {
      var id := loc.resolvers[i - |a| - |b|];
      assert (a + b + c)[i] == c[i - |a| - |b|] == Lane(ResolverKey(id), id, Operational);
    }
  }

  /** The keys of its lanes tell what a location lists. */
  lemma LanesTellListing(a: Location, b: Location, archived: seq<ArchivedNode>)
    requires a.id == b.id && SameLanes(LocationLanes(a, archived), LocationLanes(b, archived))
    ensures a.nodes == b.nodes && a.resolvers == b.resolvers
  {
    var x, y, r := LocationLanes(a, archived), LocationLanes(b, archived), |ArchivedLanes(archived, a.id)|;
    assert |ENTITY_NODE| != |ENTITY_DNS_RESOLVER|;
    if |a.nodes| < |b.nodes| {
      LaneKinds(a, archived, |a.nodes| + r);
      LaneKinds(b, archived, |a.nodes| + r);
    }
    if |b.nodes| < |a.nodes| {
      LaneKinds(a, archived, |b.nodes| + r);
      LaneKinds(b, archived, |b.nodes| + r);
    }
    forall i | 0 <= i < |a.nodes|
      ensures a.nodes[i] == b.nodes[i]
    {
      LaneKinds(a, archived, i);
      LaneKinds(b, archived, i);
    }
    forall i | 0 <= i < |a.resolvers|
      ensures a.resolvers[i] == b.resolvers[i]
    {
      LaneKinds(a, archived, |a.nodes| + r + i);
      LaneKinds(b, archived, |a.nodes| + r + i);
    }
  }

  /** The first and the last location of the id list the same nodes and resolvers, in the same order. */
  ghost predicate FirstAndLastListTheSame(config: Config, g: GroupTarget) {
    g.LocationGroup? && IsGroup(config, g) ==>
      var a, b := FirstLocation(config.locations, g.id), LastLocation(config.locations, g.id);
      a.Some? && a.value.nodes == b.value.nodes && a.value.resolvers == b.value.resolvers
  }

  /**
    A group's bar on demand is made for the first location of its id, the one in the batch for the last. The two
    show the same days exactly if those two locations list the same nodes and resolvers.
  */
  lemma GroupBarsAgreeExactly(config: Config, archived: seq<ArchivedNode>, data: HistoryData, g: GroupTarget,
                              demand: BarView, batch: BarView)
    requires IsGroup(config, g)
    requires ShowsGroup(demand, data, DemandLanes(config, archived, g), config, archived, g)
    requires ShowsGroup(batch, data, BatchLanes(config, archived, g), config, archived, g)
    ensures SameBars(demand, batch) <==> FirstAndLastListTheSame(config, g)
  {
    var a, b := DemandLanes(config, archived, g), BatchLanes(config, archived, g);
    GroupLanesAreOperational(config, archived, g, a);
    GroupLanesAreOperational(config, archived, g, b);
    if FirstAndLastListTheSame(config, g) {
      SameLanesSameBars(a, config, archived, data, g, demand, batch);
    }
    if SameBars(demand, batch) && g.LocationGroup? {
      GroupBarHasLanes(a, config, archived, data, g, demand, 0);
      GroupBarHasLanes(b, config, archived, data, g, batch, 0);
      assert SameDay(demand.days[0], batch.days[0]);
      var first, last := FirstLocation(config.locations, g.id), LastLocation(config.locations, g.id);
      assert last.value in config.locations;
      LanesTellListing(first.value, last.value, archived);
    }
  }

  /** So with unique location ids they always agree. */
  lemma GroupBarsAgree(config: Config, archived: seq<ArchivedNode>, data: HistoryData, g: GroupTarget,
                       demand: BarView, batch: BarView)
    requires UniqueLocationIds(config) && IsGroup(config, g)
    requires ShowsGroup(demand, data, DemandLanes(config, archived, g), config, archived, g)
    requires ShowsGroup(batch, data, BatchLanes(config, archived, g), config, archived, g)
    ensures SameBars(demand, batch)
  {
    assert g.LocationGroup? ==> LastLocation(config.locations, g.id).value in config.locations;
    GroupBarsAgreeExactly(config, archived, data, g, demand, batch);
  }

  // ---- A repeated location id

  const REPEATED_ID := Config([Location(1, "a", ["n1"], []), Location(1, "b", ["n2"], [])], [], [])

  /**
    Two locations of one id: the bar on demand has a lane for the node of the first, the bar in the batch of
    the second.
  */
  lemma RepeatedIdSplitsTheViews(data: HistoryData, demand: BarView, batch: BarView)
    requires ShowsGroup(demand, data, DemandLanes(REPEATED_ID, [], LocationGroup(1)), REPEATED_ID, [], LocationGroup(1))
    requires ShowsGroup(batch, data, BatchLanes(REPEATED_ID, [], LocationGroup(1)), REPEATED_ID, [], LocationGroup(1))
    ensures !SameBars(demand, batch)
    ensures DemandLanes(REPEATED_ID, [], LocationGroup(1)) == [Lane(NodeKey("n1"), "n1", Operational)]
    ensures BatchLanes(REPEATED_ID, [], LocationGroup(1)) == [Lane(NodeKey("n2"), "n2", Operational)]
  {
    var a, b := REPEATED_ID.locations[0], REPEATED_ID.locations[1];
    assert LocationLanes(a, []) == [Lane(NodeKey("n1"), "n1", Operational)];
    assert LocationLanes(b, []) == [Lane(NodeKey("n2"), "n2", Operational)];
    assert a.nodes[0] != b.nodes[0];
    GroupBarsAgreeExactly(REPEATED_ID, [], data, LocationGroup(1), demand, batch);
  }
}
