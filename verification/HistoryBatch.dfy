/**
  All bars in one batch, and a single bar on demand. The batch applies incident after incident to every bar that it
  concerns, on demand a bar is given its own; maps are walked in any order.
*/
module HistoryBatch {
  import opened Common
  import opened Outages
  import opened HistoryBars
  import opened HistoryBarLaws
  import opened HistoryViews
  import Sorting

  type Groups = map<GroupTarget, BarView>

  type Targets = map<HistoryKey, seq<GroupTarget>>

  function TargetsOf(m: Targets, key: HistoryKey): seq<GroupTarget> {
    if key in m then m[key] else []
  }

  // ---- Which groups show an entity

  /** The targets of m, and for the named entities one target more. */
  ghost predicate HasTargetsOf(ret: Targets, m: Targets, keyOf: string -> HistoryKey, ids: seq<string>,
                               target: GroupTarget) {
    forall key, g :: g in TargetsOf(ret, key) <==>
      g in TargetsOf(m, key) || (g == target && exists id :: id in ids && key == keyOf(id))
  }

  lemma TargetsWithOneMore(ret: Targets, m: Targets, keyOf: string -> HistoryKey, ids: seq<string>, id: string,
                           target: GroupTarget)
    requires HasTargetsOf(ret, m, keyOf, ids, target)
    ensures HasTargetsOf(ret[keyOf(id) := TargetsOf(ret, keyOf(id)) + [target]], m, keyOf, ids + [id], target)
  {
    var next := ret[keyOf(id) := TargetsOf(ret, keyOf(id)) + [target]];
    forall key, g
      ensures g in TargetsOf(next, key) <==>
                g in TargetsOf(m, key) || (g == target && exists x :: x in ids + [id] && key == keyOf(x))
    {
      assert g in TargetsOf(next, key) <==> g in TargetsOf(ret, key) || (key == keyOf(id) && g == target);
      assert (exists x :: x in ids + [id] && key == keyOf(x)) <==>
          (exists x :: x in ids && key == keyOf(x)) || key == keyOf(id) by {
        assert id in ids + [id];
        assert forall x :: x in ids + [id] <==> x in ids || x == id;
      }
    }
  }

  method AddHistoryGroupTargets(m: Targets, keyOf: string -> HistoryKey, ids: seq<string>, target: GroupTarget)
    returns (ret: Targets)
    ensures HasTargetsOf(ret, m, keyOf, ids, target)
  {
    ret := m;
    for i := 0 to |ids|
      invariant HasTargetsOf(ret, m, keyOf, ids[..i], target)
    {
      assert ids[..i + 1] == ids[..i] + [ids[i]];
      TargetsWithOneMore(ret, m, keyOf, ids[..i], ids[i], target);
      var key := keyOf(ids[i]);
      ret := ret[key := TargetsOf(ret, key) + [target]];
    }
    assert ids[..|ids|] == ids;
  }

  /** The location group n shows the entity, going by the locations alone. */
  ghost predicate InLocations(locations: seq<Location>, key: HistoryKey, g: GroupTarget) {
    g.LocationGroup? && exists loc :: loc in locations && loc.id == g.id && InLocation(loc, key)
  }

  ghost predicate InArchive(archived: seq<ArchivedNode>, key: HistoryKey, g: GroupTarget) {
    && g.LocationGroup?
    && exists node :: node in archived && node.groupId == g.id && key == HistoryKey(ENTITY_NODE, node.id)
  }

  ghost predicate AreEntityGroups(m: Targets, config: Config, archived: seq<ArchivedNode>) {
    forall key, g :: g in TargetsOf(m, key) <==> Belongs(config, archived, key, g)
  }

  ghost predicate AddsLocations(ret: Targets, m: Targets, locations: seq<Location>) {
    forall key, g :: g in TargetsOf(ret, key) <==> g in TargetsOf(m, key) || InLocations(locations, key, g)
  }

  ghost predicate AddsArchive(ret: Targets, m: Targets, archived: seq<ArchivedNode>) {
    forall key, g :: g in TargetsOf(ret, key) <==> g in TargetsOf(m, key) || InArchive(archived, key, g)
  }

  method AddLocationTargets(m: Targets, locations: seq<Location>) returns (ret: Targets)
    ensures AddsLocations(ret, m, locations)
  {
    ret := m;
    for i := 0 to |locations|
      invariant AddsLocations(ret, m, locations[..i])
    {
      var loc, prior := locations[i], ret;
      assert locations[..i + 1] == locations[..i] + [loc];
      ret := AddHistoryGroupTargets(prior, NodeKey, loc.nodes, LocationGroup(loc.id));
      var withNodes := ret;
      ret := AddHistoryGroupTargets(withNodes, ResolverKey, loc.resolvers, LocationGroup(loc.id));
    }
    assert locations[..|locations|] == locations;
  }

  method AddArchiveTargets(m: Targets, archived: seq<ArchivedNode>) returns (ret: Targets)
    ensures AddsArchive(ret, m, archived)
  {
    ret := m;
    for i := 0 to |archived|
      invariant AddsArchive(ret, m, archived[..i])
    {
      var node := archived[i];
      assert archived[..i + 1] == archived[..i] + [node];
      var key := NodeKey(node.id);
      ret := ret[key := TargetsOf(ret, key) + [LocationGroup(node.groupId)]];
    }
    assert archived[..|archived|] == archived;
  }

  method ConfiguredHistoryEntityGroups(config: Config, archived: seq<ArchivedNode>) returns (ret: Targets)
    ensures AreEntityGroups(ret, config, archived)
  {
    ret := AddHistoryGroupTargets(map[], VpsAdminKey, VPSADMIN_SERVICES, VpsAdminGroup);
    ret := AddLocationTargets(ret, config.locations);
    ret := AddArchiveTargets(ret, archived);
    ret := AddHistoryGroupTargets(ret, WebKey, config.web, ServicesGroup);
    ret := AddHistoryGroupTargets(ret, NameServerKey, config.nameServers, ServicesGroup);
  }

  // ---- Group bars

  ghost predicate IsFirstLocation(locations: seq<Location>, i: nat, loc: Location) {
    && i < |locations| && locations[i] == loc
    && forall j :: 0 <= j < i ==> locations[j].id != loc.id
  }

  ghost predicate IsLastLocation(locations: seq<Location>, i: nat, loc: Location) {
    && i < |locations| && locations[i] == loc
    && forall j :: i < j < |locations| ==> locations[j].id != loc.id
  }

  /** The first location of the id, which a group's bar on demand is made for. */
  function FirstLocation(locations: seq<Location>, id: int): (r: Option<Location>)
    ensures r.Some? ==> r.value in locations && r.value.id == id
    ensures r.Some? ==> exists i: nat :: IsFirstLocation(locations, i, r.value)
    ensures r.None? ==> forall loc :: loc in locations ==> loc.id != id
  {
    if locations == [] then None
    else if locations[0].id == id then
      assert IsFirstLocation(locations, 0, locations[0]);
      Some(locations[0])
    else
      var r := FirstLocation(locations[1..], id);
      assert r.Some? ==> exists i: nat :: IsFirstLocation(locations, i, r.value) by {
        if r.Some? {
          var i: nat :| IsFirstLocation(locations[1..], i, r.value);
          assert IsFirstLocation(locations, i + 1, r.value);
        }
      }
      r
  }

  /** The last location of the id, which replaces the earlier ones in the batch. */
  function LastLocation(locations: seq<Location>, id: int): (r: Option<Location>)
    ensures r.Some? ==> r.value in locations && r.value.id == id
    ensures r.Some? ==> exists i: nat :: IsLastLocation(locations, i, r.value)
    ensures r.None? ==> forall loc :: loc in locations ==> loc.id != id
  {
    if locations == [] then None
    else if locations[|locations| - 1].id == id then
      assert IsLastLocation(locations, |locations| - 1, locations[|locations| - 1]);
      Some(locations[|locations| - 1])
    else
      var r := LastLocation(locations[..|locations| - 1], id);
      assert r.Some? ==> exists i: nat :: IsLastLocation(locations, i, r.value) by {
        if r.Some? {
          var i: nat :| IsLastLocation(locations[..|locations| - 1], i, r.value);
          assert IsLastLocation(locations, i, r.value);
        }
      }
      r
  }

  function LanesOf(location: Option<Location>, archived: seq<ArchivedNode>): seq<Lane> {
    if location.Some? then LocationLanes(location.value, archived) else []
  }

  /** The lanes of a group's bar in the batch. */
  function BatchLanes(config: Config, archived: seq<ArchivedNode>, g: GroupTarget): seq<Lane> {
    match g
    case VpsAdminGroup => VpsAdminLanes()
    case LocationGroup(id) => LanesOf(LastLocation(config.locations, id), archived)
    case ServicesGroup => ServicesLanes(config)
  }

  /** The lanes of a group's bar on demand. */
  function DemandLanes(config: Config, archived: seq<ArchivedNode>, g: GroupTarget): seq<Lane> {
    match g
    case VpsAdminGroup => VpsAdminLanes()
    case LocationGroup(id) => LanesOf(FirstLocation(config.locations, id), archived)
    case ServicesGroup => ServicesLanes(config)
  }

  predicate IsGroup(config: Config, g: GroupTarget) {
    g.LocationGroup? ==> LastLocation(config.locations, g.id).Some?
  }

  ghost predicate AreFreshGroups(groups: Groups, config: Config, archived: seq<ArchivedNode>, data: HistoryData) {
    forall g :: (g in groups <==> IsGroup(config, g))
                && (g in groups ==>
                      groups[g] == NewBar(data.now, BatchLanes(config, archived, g), data.days, data.localDay))
  }

  method NewHistoryGroupViews(config: Config, archived: seq<ArchivedNode>, data: HistoryData) returns (groups: Groups)
    ensures AreFreshGroups(groups, config, archived, data)
  {
    groups := map[VpsAdminGroup := NewBar(data.now, VpsAdminLanes(), data.days, data.localDay)];
    for i := 0 to |config.locations|
      invariant forall g :: g in groups <==>
                  g == VpsAdminGroup || (g.LocationGroup? && LastLocation(config.locations[..i], g.id).Some?)
      invariant groups[VpsAdminGroup] == NewBar(data.now, VpsAdminLanes(), data.days, data.localDay)
      invariant forall id :: LocationGroup(id) in groups ==>
                  groups[LocationGroup(id)]
                  == NewBar(data.now, LanesOf(LastLocation(config.locations[..i], id), archived), data.days,
                            data.localDay)
    {
      var location := config.locations[i];
      assert config.locations[..i + 1][..i] == config.locations[..i];
      groups := groups[LocationGroup(location.id) :=
        NewBar(data.now, LocationLanes(location, archived), data.days, data.localDay)];
    }
    assert config.locations[..|config.locations|] == config.locations;
    groups := groups[ServicesGroup := NewBar(data.now, ServicesLanes(config), data.days, data.localDay)];
  }

  // ---- Applying one incident everywhere

  ghost predicate BarsShow(bars: map<HistoryKey, BarView>, data: HistoryData, done: seq<Application>) {
    forall key :: key in bars ==>
      bars[key] == BarAfter(NewBar(data.now, [], data.days, data.localDay), AppsOf(done, key), data.localDay,
                            data.captioned)
  }

  ghost predicate GroupShows(bar: BarView, lanes: seq<Lane>, config: Config, archived: seq<ArchivedNode>,
                             g: GroupTarget, data: HistoryData, done: seq<Application>) {
    exists apps :: IsGroupHistory(bar, lanes, config, archived, g, data, done, apps)
  }

  ghost predicate IsGroupHistory(bar: BarView, lanes: seq<Lane>, config: Config, archived: seq<ArchivedNode>,
                                 g: GroupTarget, data: HistoryData, done: seq<Application>, apps: seq<Application>) {
    && bar == BarAfter(NewBar(data.now, lanes, data.days, data.localDay), apps, data.localDay, data.captioned)
    && forall a :: a in apps <==> a in done && Belongs(config, archived, a.key, g)
  }

  ghost predicate GroupsShow(groups: Groups, config: Config, archived: seq<ArchivedNode>, data: HistoryData,
                             done: seq<Application>) {
    forall g :: (g in groups <==> IsGroup(config, g))
                && (g in groups ==> GroupShows(groups[g], BatchLanes(config, archived, g), config, archived, g, data,
                                               done))
  }

  lemma GroupWithOneMore(bar: BarView, lanes: seq<Lane>, config: Config, archived: seq<ArchivedNode>, g: GroupTarget,
                         data: HistoryData, done: seq<Application>, a: Application)
    requires GroupShows(bar, lanes, config, archived, g, data, done)
    ensures Belongs(config, archived, a.key, g) ==>
              GroupShows(BarApplied(bar, a, data.localDay, data.captioned), lanes, config, archived, g, data,
                         done + [a])
    ensures !Belongs(config, archived, a.key, g) ==> GroupShows(bar, lanes, config, archived, g, data, done + [a])
  {
    var apps :| IsGroupHistory(bar, lanes, config, archived, g, data, done, apps);
    assert forall x :: x in done + [a] <==> x in done || x == a;
    if Belongs(config, archived, a.key, g) {
      BarAfterOneMore(NewBar(data.now, lanes, data.days, data.localDay), apps, a, data.localDay, data.captioned);
      assert forall x :: x in apps + [a] <==> x in apps || x == a;
      assert IsGroupHistory(BarApplied(bar, a, data.localDay, data.captioned), lanes, config, archived, g, data,
                            done + [a], apps + [a]);
    } else {
      assert IsGroupHistory(bar, lanes, config, archived, g, data, done + [a], apps);
    }
  }

  /** Applying the same incident to a group once more changes nothing that GroupShows tells. */
  lemma GroupWithRepetition(bar: BarView, lanes: seq<Lane>, config: Config, archived: seq<ArchivedNode>, g: GroupTarget,
                            data: HistoryData, done: seq<Application>, a: Application)
    requires GroupShows(bar, lanes, config, archived, g, data, done)
    requires a in done && Belongs(config, archived, a.key, g)
    ensures GroupShows(BarApplied(bar, a, data.localDay, data.captioned), lanes, config, archived, g, data, done)
  {
    var apps :| IsGroupHistory(bar, lanes, config, archived, g, data, done, apps);
    BarAfterOneMore(NewBar(data.now, lanes, data.days, data.localDay), apps, a, data.localDay, data.captioned);
    assert forall x :: x in apps + [a] <==> x in apps || x == a;
    assert IsGroupHistory(BarApplied(bar, a, data.localDay, data.captioned), lanes, config, archived, g, data, done,
                          apps + [a]);
  }

  method ApplyHistoryIncidentToGroups(groups0: Groups, targets: seq<GroupTarget>, a: Application, config: Config,
                                      archived: seq<ArchivedNode>, data: HistoryData, ghost done: seq<Application>)
    returns (groups: Groups)
    requires GroupsShow(groups0, config, archived, data, done)
    requires forall g :: g in targets <==> Belongs(config, archived, a.key, g)
    ensures GroupsShow(groups, config, archived, data, done + [a])
  {
    groups := groups0;
    for i := 0 to |targets|
      invariant groups.Keys == groups0.Keys
      invariant forall g :: g in groups ==>
                  GroupShows(groups[g], BatchLanes(config, archived, g), config, archived, g, data,
                             if g in targets[..i] then done + [a] else done)
    {
      var g := targets[i];
      assert targets[..i + 1] == targets[..i] + [g];
      assert g in targets;
      if g !in groups {
        continue;
      }
      if g in targets[..i] {
        GroupWithRepetition(groups[g], BatchLanes(config, archived, g), config, archived, g, data, done + [a], a);
      } else {
        GroupWithOneMore(groups[g], BatchLanes(config, archived, g), config, archived, g, data, done, a);
      }
      groups := groups[g := BarApplied(groups[g], a, data.localDay, data.captioned)];
    }
    assert targets[..|targets|] == targets;
    forall g | g in groups
      ensures GroupShows(groups[g], BatchLanes(config, archived, g), config, archived, g, data, done + [a])
    {
      if g !in targets {
        GroupWithOneMore(groups[g], BatchLanes(config, archived, g), config, archived, g, data, done, a);
      }
    }
  }

  method ApplyToBar(bars0: map<HistoryKey, BarView>, a: Application, data: HistoryData, ghost done: seq<Application>)
    returns (bars: map<HistoryKey, BarView>)
    requires BarsShow(bars0, data, done)
    ensures bars.Keys == bars0.Keys && BarsShow(bars, data, done + [a])
  {
    bars := bars0;
    if a.key in bars {
      bars := bars[a.key := BarApplied(bars[a.key], a, data.localDay, data.captioned)];
    }
    forall key | key in bars
      ensures bars[key] == BarAfter(NewBar(data.now, [], data.days, data.localDay), AppsOf(done + [a], key),
                                    data.localDay, data.captioned)
    {
      Sorting.SelectedAppend(OfKey(key), done, a);
      BarAfterOneMore(NewBar(data.now, [], data.days, data.localDay), AppsOf(done, key), a, data.localDay,
                      data.captioned);
    }
  }

  // ---- What each entity has been given, whatever the order of the map of affected entities

  /** The applications done after n reports, and after the `walked` entities of report n. */
  ghost predicate DoneReports(done: seq<Application>, data: HistoryData, n: nat, walked: set<HistoryKey>)
    requires n <= |data.reports|
  {
    forall key :: AppsOf(done, key) ==
      if n < |data.reports| && key in walked
      then ReportApps(data, n, key) + [ReportApplication(data, data.reports[n], key)]
      else ReportApps(data, n, key)
  }

  lemma DoneOneMore(done: seq<Application>, a: Application)
    ensures forall key :: AppsOf(done + [a], key) == if key == a.key then AppsOf(done, key) + [a] else AppsOf(done, key)
  {
    forall key
      ensures AppsOf(done + [a], key) == if key == a.key then AppsOf(done, key) + [a] else AppsOf(done, key)
    {
      Sorting.SelectedAppend(OfKey(key), done, a);
    }
  }

  lemma DoneWalk(done: seq<Application>, data: HistoryData, n: nat, walked: set<HistoryKey>, key: HistoryKey)
    requires n < |data.reports| && DoneReports(done, data, n, walked) && key !in walked
    ensures DoneReports(done + [ReportApplication(data, data.reports[n], key)], data, n, walked + {key})
  {
    DoneOneMore(done, ReportApplication(data, data.reports[n], key));
  }

  lemma DoneIncident(done: seq<Application>, data: HistoryData, n: nat)
    requires n < |data.incidents| && DoneIncidents(done, data, n)
    ensures DoneIncidents(done + [IncidentApplication(data, data.incidents[n])], data, n + 1)
  {
    var a := IncidentApplication(data, data.incidents[n]);
    DoneOneMore(done, a);
    forall key
      ensures AppsOf(done + [a], key) == ReportApps(data, |data.reports|, key) + IncidentApps(data, n + 1, key)
    {
      assert ReportApps(data, |data.reports|, key) + (IncidentApps(data, n, key) + [a])
          == ReportApps(data, |data.reports|, key) + IncidentApps(data, n, key) + [a];
    }
  }

  ghost predicate DoneIncidents(done: seq<Application>, data: HistoryData, n: nat)
    requires n <= |data.incidents|
  {
    forall key :: AppsOf(done, key) == ReportApps(data, |data.reports|, key) + IncidentApps(data, n, key)
  }

  function ConfiguredHistoryEntities(config: Config): set<HistoryKey> {
    (set id | id in VPSADMIN_SERVICES :: VpsAdminKey(id))
    + (set loc, id | loc in config.locations && id in loc.nodes :: NodeKey(id))
    + (set loc, id | loc in config.locations && id in loc.resolvers :: ResolverKey(id))
    + (set id | id in config.web :: WebKey(id))
    + (set id | id in config.nameServers :: NameServerKey(id))
  }

  lemma ConfiguredEntitiesAreConfigured(config: Config, key: HistoryKey)
    ensures key in ConfiguredHistoryEntities(config) <==> IsConfigured(config, key)
  {
    if loc :| loc in config.locations && InLocation(loc, key) {
      assert key == NodeKey(key.id) || key == ResolverKey(key.id);
    }
    assert key.kind == ENTITY_VPSADMIN ==> key == VpsAdminKey(key.id);
    assert key.kind == ENTITY_WEB_SERVICE ==> key == WebKey(key.id);
    assert key.kind == ENTITY_NAME_SERVER ==> key == NameServerKey(key.id);
  }

  /** Bars and groups both show what has been done. */
  ghost predicate BatchShows(groups: Groups, bars: map<HistoryKey, BarView>, config: Config,
                             archived: seq<ArchivedNode>, data: HistoryData, done: seq<Application>) {
    BarsShow(bars, data, done) && GroupsShow(groups, config, archived, data, done)
  }

  method ApplyEverywhere(groups0: Groups, bars0: map<HistoryKey, BarView>, entityGroups: Targets, a: Application,
                         config: Config, archived: seq<ArchivedNode>, data: HistoryData, ghost done: seq<Application>)
    returns (groups: Groups, bars: map<HistoryKey, BarView>)
    requires BatchShows(groups0, bars0, config, archived, data, done)
    requires AreEntityGroups(entityGroups, config, archived)
    ensures bars.Keys == bars0.Keys && BatchShows(groups, bars, config, archived, data, done + [a])
  {
    bars := ApplyToBar(bars0, a, data, done);
    groups := ApplyHistoryIncidentToGroups(groups0, TargetsOf(entityGroups, a.key), a, config, archived, data, done);
  }

  /** One report, for every entity it affects, in whatever order the map is walked. */
  method ApplyReport(groups0: Groups, bars0: map<HistoryKey, BarView>, entityGroups: Targets, i: nat, config: Config,
                     archived: seq<ArchivedNode>, data: HistoryData, ghost done0: seq<Application>)
    returns (groups: Groups, bars: map<HistoryKey, BarView>, ghost done: seq<Application>)
    requires i < |data.reports| && BatchShows(groups0, bars0, config, archived, data, done0)
              && DoneReports(done0, data, i, {})
    requires AreEntityGroups(entityGroups, config, archived)
    ensures bars.Keys == bars0.Keys && BatchShows(groups, bars, config, archived, data, done)
    ensures DoneReports(done, data, i + 1, {})
  {
    groups, bars, done := groups0, bars0, done0;
    var keys := data.keysOf(data.reports[i]);
    ghost var walked: set<HistoryKey> := {};
    while keys != {}
      invariant walked + keys == data.keysOf(data.reports[i]) && walked !! keys
      invariant bars.Keys == bars0.Keys && BatchShows(groups, bars, config, archived, data, done)
      invariant DoneReports(done, data, i, walked)
      decreases keys
    {
      var key :| key in keys;
      keys := keys - {key};
      var a := ReportApplication(data, data.reports[i], key);
      DoneWalk(done, data, i, walked, key);
      groups, bars := ApplyEverywhere(groups, bars, entityGroups, a, config, archived, data, done);
      done := done + [a];
      walked := walked + {key};
    }
  }

  method FreshViews(config: Config, archived: seq<ArchivedNode>, data: HistoryData)
    returns (groups: Groups, bars: map<HistoryKey, BarView>)
    ensures bars.Keys == ConfiguredHistoryEntities(config)
    ensures BatchShows(groups, bars, config, archived, data, []) && DoneReports([], data, 0, {})
  {
    bars := map key | key in ConfiguredHistoryEntities(config) :: NewBar(data.now, [], data.days, data.localDay);
    groups := NewHistoryGroupViews(config, archived, data);
    forall g | g in groups
      ensures GroupShows(groups[g], BatchLanes(config, archived, g), config, archived, g, data, [])
    {
      assert IsGroupHistory(groups[g], BatchLanes(config, archived, g), config, archived, g, data, [], []);
    }
  }

  /** All the bars, applying incident after incident to every bar concerned. */
  method CreateHistoryViews(config: Config, archived: seq<ArchivedNode>, data: HistoryData)
    returns (groups: Groups, bars: map<HistoryKey, BarView>)
    ensures forall key :: key in bars <==> IsConfigured(config, key)
    ensures AreEntityBars(bars, data)
    ensures AreGroupBars(groups, config, archived, data)
  {
    groups, bars := FreshViews(config, archived, data);
    var entityGroups := ConfiguredHistoryEntityGroups(config, archived);
    ghost var done: seq<Application> := [];

    for i := 0 to |data.reports|
      invariant bars.Keys == ConfiguredHistoryEntities(config)
      invariant BatchShows(groups, bars, config, archived, data, done) && DoneReports(done, data, i, {})
    {
      groups, bars, done := ApplyReport(groups, bars, entityGroups, i, config, archived, data, done);
    }
    for i := 0 to |data.incidents|
      invariant bars.Keys == ConfiguredHistoryEntities(config)
      invariant BatchShows(groups, bars, config, archived, data, done) && DoneIncidents(done, data, i)
    {
      var a := IncidentApplication(data, data.incidents[i]);
      DoneIncident(done, data, i);
      groups, bars := ApplyEverywhere(groups, bars, entityGroups, a, config, archived, data, done);
      done := done + [a];
    }

    AllIsDone(groups, config, archived, data, done);
    forall key
      ensures key in bars <==> IsConfigured(config, key)
    {
      ConfiguredEntitiesAreConfigured(config, key);
    }
  }

  ghost predicate AreEntityBars(bars: map<HistoryKey, BarView>, data: HistoryData) {
    forall key :: key in bars ==> bars[key] == EntityBar(data, key)
  }

  /** There is a bar for every group, given its members' incidents. */
  ghost predicate AreGroupBars(groups: Groups, config: Config, archived: seq<ArchivedNode>, data: HistoryData) {
    forall g :: (g in groups <==> IsGroup(config, g))
                && (g in groups ==> ShowsGroup(groups[g], data, BatchLanes(config, archived, g), config, archived, g))
  }

  lemma AllIsDone(groups: Groups, config: Config, archived: seq<ArchivedNode>, data: HistoryData,
                  done: seq<Application>)
    requires GroupsShow(groups, config, archived, data, done) && DoneIncidents(done, data, |data.incidents|)
    ensures AreGroupBars(groups, config, archived, data)
  {
    forall g | g in groups
      ensures ShowsGroup(groups[g], data, BatchLanes(config, archived, g), config, archived, g)
    {
      DoneIsEntityApps(groups[g], BatchLanes(config, archived, g), config, archived, g, data, done);
    }
  }

  lemma DoneIsEntityApps(bar: BarView, lanes: seq<Lane>, config: Config, archived: seq<ArchivedNode>, g: GroupTarget,
                         data: HistoryData, done: seq<Application>)
    requires GroupShows(bar, lanes, config, archived, g, data, done)
    requires forall key :: AppsOf(done, key) == EntityApps(data, key)
    ensures ShowsGroup(bar, data, lanes, config, archived, g)
  {
    var apps :| IsGroupHistory(bar, lanes, config, archived, g, data, done, apps);
    forall a
      ensures a in done <==> a in EntityApps(data, a.key)
    {
      Sorting.SelectedMembers(OfKey(a.key), done);
      assert a in AppsOf(done, a.key) <==> a in done;
    }
    assert GivenToMembers(apps, data, config, archived, g);
    BarAfterHasDays(data, lanes, apps);
  }

  // ---- A group's bar on demand

  function HistoryTargetsInclude(targets: seq<GroupTarget>, want: GroupTarget): (r: bool)
    ensures r <==> want in targets
  {
    if targets == [] then false else targets[0] == want || HistoryTargetsInclude(targets[1..], want)
  }

  method ApplyToGroup(bar0: BarView, lanes: seq<Lane>, entityGroups: Targets, target: GroupTarget, a: Application,
                      config: Config, archived: seq<ArchivedNode>, data: HistoryData, ghost done: seq<Application>)
    returns (bar: BarView)
    requires GroupShows(bar0, lanes, config, archived, target, data, done)
    requires AreEntityGroups(entityGroups, config, archived)
    ensures GroupShows(bar, lanes, config, archived, target, data, done + [a])
  {
    GroupWithOneMore(bar0, lanes, config, archived, target, data, done, a);
    if !HistoryTargetsInclude(TargetsOf(entityGroups, a.key), target) {
      return bar0;
    }
    bar := BarApplied(bar0, a, data.localDay, data.captioned);
  }

  /** One report, for those affected entities that belong to the group. */
  method ApplyReportToGroup(bar0: BarView, lanes: seq<Lane>, entityGroups: Targets, target: GroupTarget, i: nat,
                            config: Config, archived: seq<ArchivedNode>, data: HistoryData,
                            ghost done0: seq<Application>)
    returns (bar: BarView, ghost done: seq<Application>)
    requires i < |data.reports| && GroupShows(bar0, lanes, config, archived, target, data, done0)
              && DoneReports(done0, data, i, {})
    requires AreEntityGroups(entityGroups, config, archived)
    ensures GroupShows(bar, lanes, config, archived, target, data, done) && DoneReports(done, data, i + 1, {})
  {
    bar, done := bar0, done0;
    var keys := data.keysOf(data.reports[i]);
    ghost var walked: set<HistoryKey> := {};
    while keys != {}
      invariant walked + keys == data.keysOf(data.reports[i]) && walked !! keys
      invariant GroupShows(bar, lanes, config, archived, target, data, done)
      invariant DoneReports(done, data, i, walked)
      decreases keys
    {
      var key :| key in keys;
      keys := keys - {key};
      var a := ReportApplication(data, data.reports[i], key);
      DoneWalk(done, data, i, walked, key);
      bar := ApplyToGroup(bar, lanes, entityGroups, target, a, config, archived, data, done);
      done := done + [a];
      walked := walked + {key};
    }
  }

  method FindLocationByID(locations: seq<Location>, id: int) returns (location: Option<Location>)
    ensures location == FirstLocation(locations, id)
  {
    for i := 0 to |locations|
      invariant FirstLocation(locations, id) == FirstLocation(locations[i..], id)
    {
      if locations[i].id == id {
        return Some(locations[i]);
      }
      assert locations[i..][1..] == locations[i + 1..];
    }
    return None;
  }

  method CreateGroupHistoryView(config: Config, archived: seq<ArchivedNode>, data: HistoryData, target: GroupTarget)
    returns (bar: BarView)
    ensures ShowsGroup(bar, data, DemandLanes(config, archived, target), config, archived, target)
  {
    var entityGroups := ConfiguredHistoryEntityGroups(config, archived);
    var lanes: seq<Lane> := [];
    match target {
      case VpsAdminGroup => lanes := VpsAdminLanes();
      case LocationGroup(id) =>
        var location := FindLocationByID(config.locations, id);
        if location.Some? {
          lanes := LocationLanes(location.value, archived);
        }
      case ServicesGroup => lanes := ServicesLanes(config);
    }
    bar := NewBar(data.now, lanes, data.days, data.localDay);
    ghost var done: seq<Application> := [];
    assert IsGroupHistory(bar, lanes, config, archived, target, data, [], []);
    assert DoneReports(done, data, 0, {});

    for i := 0 to |data.reports|
      invariant GroupShows(bar, lanes, config, archived, target, data, done) && DoneReports(done, data, i, {})
    {
      bar, done := ApplyReportToGroup(bar, lanes, entityGroups, target, i, config, archived, data, done);
    }
    bar := ApplyIncidentsToGroup(bar, lanes, entityGroups, target, config, archived, data, done);
  }

  /** The loop over the probe incidents. */
  method ApplyIncidentsToGroup(bar0: BarView, lanes: seq<Lane>, entityGroups: Targets, target: GroupTarget,
                               config: Config, archived: seq<ArchivedNode>, data: HistoryData,
                               ghost done0: seq<Application>)
    returns (bar: BarView)
    requires GroupShows(bar0, lanes, config, archived, target, data, done0) && DoneIncidents(done0, data, 0)
    requires AreEntityGroups(entityGroups, config, archived)
    ensures ShowsGroup(bar, data, lanes, config, archived, target)
  {
    bar := bar0;
    ghost var done := done0;
    for i := 0 to |data.incidents|
      invariant GroupShows(bar, lanes, config, archived, target, data, done) && DoneIncidents(done, data, i)
    {
      var a := IncidentApplication(data, data.incidents[i]);
      DoneIncident(done, data, i);
      bar := ApplyToGroup(bar, lanes, entityGroups, target, a, config, archived, data, done);
      done := done + [a];
    }
    DoneIsEntityApps(bar, lanes, config, archived, target, data, done);
  }

  // ---- An entity's bar on demand

  method CreateEntityHistoryView(data: HistoryData, key: HistoryKey) returns (bar: BarView)
    ensures bar == EntityBar(data, key)
  {
    ghost var fresh0 := NewBar(data.now, [], data.days, data.localDay);
    bar := NewBar(data.now, [], data.days, data.localDay);
    for i := 0 to |data.reports|
      invariant bar == BarAfter(fresh0, ReportApps(data, i, key), data.localDay, data.captioned)
    {
      var report := data.reports[i];
      if key !in data.keysOf(report) {
        continue;
      }
      BarAfterOneMore(fresh0, ReportApps(data, i, key), ReportApplication(data, report, key), data.localDay,
                      data.captioned);
      bar := BarApplied(bar, ReportApplication(data, report, key), data.localDay, data.captioned);
    }
    ghost var reported := ReportApps(data, |data.reports|, key);
    assert reported + IncidentApps(data, 0, key) == reported;
    for i := 0 to |data.incidents|
      invariant bar == BarAfter(fresh0, reported + IncidentApps(data, i, key), data.localDay, data.captioned)
    {
      var a := IncidentApplication(data, data.incidents[i]);
      if a.key != key {
        continue;
      }
      BarAfterOneMore(fresh0, reported + IncidentApps(data, i, key), a, data.localDay, data.captioned);
      assert reported + IncidentApps(data, i, key) + [a] == reported + IncidentApps(data, i + 1, key);
      bar := BarApplied(bar, a, data.localDay, data.captioned);
    }
  }
}
