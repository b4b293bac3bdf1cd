/**
  The views built from bars: all entity bars and group bars in one batch, or one bar on demand. They are
  computed along different paths and in the order a map happens to be walked, and show the same.
*/
module HistoryViews {
  import opened Common
  import opened Outages
  import opened HistoryBars
  import opened HistoryBarLaws
  import opened ProbeStore
  import opened Coverage
  import Sorting

  // ---- Configuration

  datatype Location = Location(id: int, caption: string, nodes: seq<string>, resolvers: seq<string>)

  datatype Config = Config(locations: seq<Location>, web: seq<string>, nameServers: seq<string>)

  /** A removed node that still has a lane in a location. */
  datatype ArchivedNode = ArchivedNode(id: string, caption: string, groupId: int)

  datatype GroupTarget = VpsAdminGroup | LocationGroup(id: int) | ServicesGroup

  const VPSADMIN_SERVICES: seq<string> := ["webui", "api", "console"]

  function ResolverKey(id: string): HistoryKey { HistoryKey(ENTITY_DNS_RESOLVER, id) }
  function WebKey(id: string): HistoryKey { HistoryKey(ENTITY_WEB_SERVICE, id) }
  function NameServerKey(id: string): HistoryKey { HistoryKey(ENTITY_NAME_SERVER, id) }
  function VpsAdminKey(id: string): HistoryKey { HistoryKey(ENTITY_VPSADMIN, id) }

  /** The entity is shown in the group. */
  ghost predicate Belongs(config: Config, archived: seq<ArchivedNode>, key: HistoryKey, g: GroupTarget) {
    match g
    case VpsAdminGroup => key.kind == ENTITY_VPSADMIN && key.id in VPSADMIN_SERVICES
    case LocationGroup(n) =>
      || (exists loc :: loc in config.locations && loc.id == n && InLocation(loc, key))
      || (exists node :: node in archived && node.groupId == n && key == HistoryKey(ENTITY_NODE, node.id))
    case ServicesGroup =>
      || (key.kind == ENTITY_WEB_SERVICE && key.id in config.web)
      || (key.kind == ENTITY_NAME_SERVER && key.id in config.nameServers)
  }

  /** The entity is one of those that have a bar of their own. */
  ghost predicate IsConfigured(config: Config, key: HistoryKey) {
    || (key.kind == ENTITY_VPSADMIN && key.id in VPSADMIN_SERVICES)
    || (exists loc :: loc in config.locations && InLocation(loc, key))
    || (key.kind == ENTITY_WEB_SERVICE && key.id in config.web)
    || (key.kind == ENTITY_NAME_SERVER && key.id in config.nameServers)
  }

  ghost predicate InLocation(loc: Location, key: HistoryKey) {
    || (key.kind == ENTITY_NODE && key.id in loc.nodes)
    || (key.kind == ENTITY_DNS_RESOLVER && key.id in loc.resolvers)
  }

  // ---- Lanes

  function LanesFor(keyOf: string -> HistoryKey, ids: seq<string>): (r: seq<Lane>)
    ensures |r| == |ids| && forall i :: 0 <= i < |r| ==> r[i] == Lane(keyOf(ids[i]), ids[i], Operational)
  {
    seq(|ids|, i requires 0 <= i < |ids| => Lane(keyOf(ids[i]), ids[i], Operational))
  }

  function ArchivedLanes(archived: seq<ArchivedNode>, group: int): (r: seq<Lane>)
    ensures forall i :: 0 <= i < |r| ==> r[i].key.kind == ENTITY_NODE && r[i].state == Operational
  {
    if archived == [] then []
    else
      var rest := ArchivedLanes(archived[..|archived| - 1], group);
      var node := archived[|archived| - 1];
      if node.groupId == group then rest + [Lane(NodeKey(node.id), node.caption, Operational)] else rest
  }

  function VpsAdminLanes(): seq<Lane> {
    LanesFor(VpsAdminKey, VPSADMIN_SERVICES)
  }

  function LocationLanes(loc: Location, archived: seq<ArchivedNode>): seq<Lane> {
    LanesFor(NodeKey, loc.nodes) + ArchivedLanes(archived, loc.id) + LanesFor(ResolverKey, loc.resolvers)
  }

  function ServicesLanes(config: Config): seq<Lane> {
    LanesFor(WebKey, config.web) + LanesFor(NameServerKey, config.nameServers)
  }

  ghost predicate HasLane(lanes: seq<Lane>, key: HistoryKey) {
    exists i :: 0 <= i < |lanes| && lanes[i].key == key
  }

  lemma HasLaneConcat(a: seq<Lane>, b: seq<Lane>, key: HistoryKey)
    ensures HasLane(a + b, key) <==> HasLane(a, key) || HasLane(b, key)
  {
    if i :| 0 <= i < |a| && a[i].key == key {
      assert (a + b)[i].key == key;
    }
    if i :| 0 <= i < |b| && b[i].key == key {
      assert (a + b)[|a| + i].key == key;
    }
  }

  lemma LanesForKeys(keyOf: string -> HistoryKey, ids: seq<string>, key: HistoryKey)
    ensures HasLane(LanesFor(keyOf, ids), key) <==> exists id :: id in ids && key == keyOf(id)
  {
    if id :| id in ids && key == keyOf(id) {
      var i :| 0 <= i < |ids| && ids[i] == id;
      assert LanesFor(keyOf, ids)[i].key == key;
    }
    if i :| 0 <= i < |ids| && LanesFor(keyOf, ids)[i].key == key {
      assert ids[i] in ids;
    }
  }

  lemma {:induction false} ArchivedLanesKeys(archived: seq<ArchivedNode>, group: int, key: HistoryKey)
    ensures HasLane(ArchivedLanes(archived, group), key)
            <==> exists node :: node in archived && node.groupId == group && key == HistoryKey(ENTITY_NODE, node.id)
  {
    if archived != [] {
      var p, node := archived[..|archived| - 1], archived[|archived| - 1];
      assert archived == p + [node];
      ArchivedLanesKeys(p, group, key);
      HasLaneConcat(ArchivedLanes(p, group), [Lane(NodeKey(node.id), node.caption, Operational)], key);
      assert HasLane([Lane(NodeKey(node.id), node.caption, Operational)], key) <==> key == NodeKey(node.id) by {
        assert [Lane(NodeKey(node.id), node.caption, Operational)][0].key == NodeKey(node.id);
      }
    }
  }

  lemma LocationLanesKeys(loc: Location, archived: seq<ArchivedNode>, key: HistoryKey)
    ensures HasLane(LocationLanes(loc, archived), key)
            <==> InLocation(loc, key)
                 || exists node :: node in archived && node.groupId == loc.id && key == HistoryKey(ENTITY_NODE, node.id)
  {
    var nodes, resolvers := LanesFor(NodeKey, loc.nodes), LanesFor(ResolverKey, loc.resolvers);
    var removed := ArchivedLanes(archived, loc.id);
    HasLaneConcat(nodes + removed, resolvers, key);
    HasLaneConcat(nodes, removed, key);
    LanesForKeys(NodeKey, loc.nodes, key);
    LanesForKeys(ResolverKey, loc.resolvers, key);
    ArchivedLanesKeys(archived, loc.id, key);
    assert key.kind == ENTITY_NODE ==> key == NodeKey(key.id);
    assert key.kind == ENTITY_DNS_RESOLVER ==> key == ResolverKey(key.id);
  }

  /** Places of a location's removed nodes, in their order. */
  ghost predicate AreRemovedAt(archived: seq<ArchivedNode>, group: int, places: seq<nat>) {
    && Sorting.Increasing(places)
    && (forall n :: 0 <= n < |places| ==> places[n] < |archived| && archived[places[n]].groupId == group)
    && (forall i :: 0 <= i < |archived| && archived[i].groupId == group ==> i in places)
  }

  ghost predicate IsNodeLane(lane: Lane, id: string, caption: string) {
    lane == Lane(HistoryKey(ENTITY_NODE, id), caption, Operational)
  }

  ghost predicate AreNodeLanesAt(lanes: seq<Lane>, archived: seq<ArchivedNode>, places: seq<nat>) {
    && |lanes| == |places|
    && forall n :: 0 <= n < |lanes| ==>
         places[n] < |archived| && IsNodeLane(lanes[n], archived[places[n]].id, archived[places[n]].caption)
  }

  lemma RemovedWithOneMore(archived: seq<ArchivedNode>, node: ArchivedNode, group: int, lanes: seq<Lane>,
                           places: seq<nat>)
    requires AreRemovedAt(archived, group, places) && AreNodeLanesAt(lanes, archived, places)
    ensures node.groupId != group ==>
              AreRemovedAt(archived + [node], group, places) && AreNodeLanesAt(lanes, archived + [node], places)
    ensures var lane := Lane(HistoryKey(ENTITY_NODE, node.id), node.caption, Operational);
            node.groupId == group ==>
              && AreRemovedAt(archived + [node], group, places + [|archived|])
              && AreNodeLanesAt(lanes + [lane], archived + [node], places + [|archived|])
  {
    Sorting.PlacesWithLast(places, |archived|);
  }

  lemma {:induction false} ArchivedLanesInOrder(archived: seq<ArchivedNode>, group: int) returns (places: seq<nat>)
    ensures AreRemovedAt(archived, group, places) && AreNodeLanesAt(ArchivedLanes(archived, group), archived, places)
  {
    places := [];
    if archived != [] {
      var p, node := archived[..|archived| - 1], archived[|archived| - 1];
      places := ArchivedLanesInOrder(p, group);
      assert archived == p + [node];
      RemovedWithOneMore(p, node, group, ArchivedLanes(p, group), places);
      if node.groupId == group {
        places := places + [|p|];
      }
    }
  }

  /** A location's lanes: its nodes, then its removed nodes, then its resolvers, each in their order, all is well. */
  lemma LocationLanesInOrder(loc: Location, archived: seq<ArchivedNode>) returns (places: seq<nat>)
    ensures AreRemovedAt(archived, loc.id, places)
    ensures var lanes, n, m := LocationLanes(loc, archived), |loc.nodes|, |places|;
            && |lanes| == n + m + |loc.resolvers|
            && (forall i :: 0 <= i < n ==> IsNodeLane(lanes[i], loc.nodes[i], loc.nodes[i]))
            && AreNodeLanesAt(lanes[n..n + m], archived, places)
            && forall i :: 0 <= i < |loc.resolvers| ==>
                 lanes[n + m + i]
                 == Lane(HistoryKey(ENTITY_DNS_RESOLVER, loc.resolvers[i]), loc.resolvers[i], Operational)
  {
    places := ArchivedLanesInOrder(archived, loc.id);
    var a, b, c := LanesFor(NodeKey, loc.nodes), ArchivedLanes(archived, loc.id), LanesFor(ResolverKey, loc.resolvers);
    assert (a + b + c)[|a|..|a| + |b|] == b;
    assert forall i :: 0 <= i < |c| ==> (a + b + c)[|a| + |b| + i] == c[i];
  }

  /** The lanes of the services: web services, then name servers, each in their order, all is well. */
  lemma ServicesLanesInOrder(config: Config)
    ensures var lanes, n := ServicesLanes(config), |config.web|;
            && |lanes| == n + |config.nameServers|
            && (forall i :: 0 <= i < n ==>
              lanes[i] == Lane(HistoryKey(ENTITY_WEB_SERVICE, config.web[i]), config.web[i], Operational))
            && forall i :: 0 <= i < |config.nameServers| ==>
                 lanes[n + i]
                 == Lane(HistoryKey(ENTITY_NAME_SERVER, config.nameServers[i]), config.nameServers[i], Operational)
  {
  }

  // ---- Bars as values

  datatype BarView = BarView(lanes: seq<Lane>, days: seq<DayView>)

  function NewBar(now: Instant, lanes: seq<Lane>, days: int, localDay: Calendar): BarView {
    BarView(lanes, FreshDays(now, days, lanes, localDay))
  }

  /** What the two apply methods of a bar do to its days. */
  function BarApplied(bar: BarView, a: Application, localDay: Calendar, captioned: Captioned): BarView {
    bar.(days := seq(|bar.days|, i requires 0 <= i < |bar.days| =>
      if bar.lanes == [] then DayApplied(bar.days[i], a, localDay)
      else LaneDayApplied(bar.days[i], a, localDay, captioned)))
  }

  function BarAfter(bar: BarView, apps: seq<Application>, localDay: Calendar, captioned: Captioned): BarView {
    if apps == [] then bar
    else BarApplied(BarAfter(bar, apps[..|apps| - 1], localDay, captioned), apps[|apps| - 1], localDay, captioned)
  }

  lemma BarAfterOneMore(bar: BarView, apps: seq<Application>, a: Application, localDay: Calendar, captioned: Captioned)
    ensures BarAfter(bar, apps + [a], localDay, captioned)
              == BarApplied(BarAfter(bar, apps, localDay, captioned), a, localDay, captioned)
  {
  }

  lemma {:induction false} BarAfterByDay(bar: BarView, apps: seq<Application>, localDay: Calendar, captioned: Captioned)
    ensures var r := BarAfter(bar, apps, localDay, captioned);
            && r.lanes == bar.lanes
            && |r.days| == |bar.days|
            && forall i :: 0 <= i < |bar.days| ==>
                 r.days[i] == if bar.lanes == [] then DayAfter(bar.days[i], apps, localDay)
                              else LaneDayAfter(bar.days[i], apps, localDay, captioned)
  {
    if apps != [] {
      BarAfterByDay(bar, apps[..|apps| - 1], localDay, captioned);
    }
  }

  // ---- Which incidents an entity is given

  type ReportViews = OutageReport -> IncidentView
  type IncidentViews = ProbeIncident -> IncidentView

  /** What all the views are built from. */
  datatype HistoryData = HistoryData(
    reports: seq<OutageReport>, keysOf: KeysOf, reportView: ReportViews,
    incidents: seq<ProbeIncident>, incidentView: IncidentViews,
    now: Instant, days: int, localDay: Calendar, captioned: Captioned)

  function FirstDay(data: HistoryData): int {
    HistoryStartDay(data.now, data.days, data.localDay)
  }

  /** The days of a history are the day of `now` and as many before it as it takes. */
  ghost function DayNumber(data: HistoryData, d: int): int {
    data.localDay(data.now) - ((if data.days > 0 then data.days else 90) - 1 - d)
  }

  lemma DaysAreNumbered(data: HistoryData, d: int)
    ensures WindowDays(data.days) == (if data.days > 0 then data.days else 90)
    ensures FirstDay(data) + d == DayNumber(data, d)
  {
  }

  function ReportApplication(data: HistoryData, report: OutageReport, key: HistoryKey): Application {
    var severity := if report.planned then Maintenance else Outage;
    Application(key, report.beginsAt, OutageEndsAt(report), severity, data.reportView(report))
  }

  function IncidentApplication(data: HistoryData, incident: ProbeIncident): Application {
    Application(EntityKey(incident.target), incident.startsAt,
                if incident.endsAt.Some? then incident.endsAt.value else data.now,
                Maintenance, data.incidentView(incident))
  }

  function ReportApps(data: HistoryData, n: nat, key: HistoryKey): seq<Application>
    requires n <= |data.reports|
  {
    if n == 0 then []
    else
      var rest := ReportApps(data, n - 1, key);
      if key in data.keysOf(data.reports[n - 1]) then rest + [ReportApplication(data, data.reports[n - 1], key)]
        else rest
  }

  function IncidentApps(data: HistoryData, n: nat, key: HistoryKey): seq<Application>
    requires n <= |data.incidents|
  {
    if n == 0 then []
    else
      var rest := IncidentApps(data, n - 1, key);
      var a := IncidentApplication(data, data.incidents[n - 1]);
      if a.key == key then rest + [a] else rest
  }

  /** An entity's reports in their order, then its visible probe incidents in theirs. */
  function EntityApps(data: HistoryData, key: HistoryKey): seq<Application> {
    ReportApps(data, |data.reports|, key) + IncidentApps(data, |data.incidents|, key)
  }

  /** The bar an entity ought to have. */
  function EntityBar(data: HistoryData, key: HistoryKey): BarView {
    BarAfter(NewBar(data.now, [], data.days, data.localDay), EntityApps(data, key), data.localDay, data.captioned)
  }

  /** Day d of a fresh bar after some incidents. */
  function DayOfBar(data: HistoryData, lanes: seq<Lane>, apps: seq<Application>, d: int): DayView {
    var fresh0 := FreshDay(FirstDay(data) + d, lanes);
    if lanes == [] then DayAfter(fresh0, apps, data.localDay)
    else LaneDayAfter(fresh0, apps, data.localDay, data.captioned)
  }

  lemma DayOfLaneBar(data: HistoryData, lanes: seq<Lane>, apps: seq<Application>, d: int)
    requires lanes != []
    ensures DayOfBar(data, lanes, apps, d)
         == LaneDayAfter(FreshDay(FirstDay(data) + d, lanes), apps, data.localDay, data.captioned)
  {
  }

  lemma DayOfPlainBar(data: HistoryData, apps: seq<Application>, d: int)
    ensures DayOfBar(data, [], apps, d) == DayAfter(FreshDay(FirstDay(data) + d, []), apps, data.localDay)
  {
  }

  /**
    A bar that was given, per entity of the group, exactly that entity's incidents, in some order, each at
    least once.
  */
  ghost predicate ShowsGroup(bar: BarView, data: HistoryData, lanes: seq<Lane>, config: Config,
                             archived: seq<ArchivedNode>, g: GroupTarget) {
    exists apps :: HasDays(bar, data, lanes, apps) && GivenToMembers(apps, data, config, archived, g)
  }

  ghost predicate HasDays(bar: BarView, data: HistoryData, lanes: seq<Lane>, apps: seq<Application>) {
    && bar.lanes == lanes
    && |bar.days| == WindowDays(data.days)
    && forall d :: 0 <= d < |bar.days| ==> bar.days[d] == DayOfBar(data, lanes, apps, d)
  }

  lemma BarAfterHasDays(data: HistoryData, lanes: seq<Lane>, apps: seq<Application>)
    ensures HasDays(BarAfter(NewBar(data.now, lanes, data.days, data.localDay), apps, data.localDay, data.captioned),
                    data, lanes, apps)
  {
  }

  ghost predicate GivenToMembers(apps: seq<Application>, data: HistoryData, config: Config, archived: seq<ArchivedNode>,
                                 g: GroupTarget) {
    forall a :: a in apps <==> Belongs(config, archived, a.key, g) && a in EntityApps(data, a.key)
  }
}
