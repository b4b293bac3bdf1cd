/**
  The lookup indexes behind outage reports: which nodes, current or removed, are at a location, and which are in an
  environment. They are built once from the configuration and the snapshots of removed nodes, and then only read.
*/
module EntityMapping {
  import opened Common
  import opened Outages
  import Sorting

  datatype Node = Node(id: int, name: string, locationId: int)

  datatype ConfiguredLocation = ConfiguredLocation(id: int, nodes: seq<Node>)

  datatype VpsAdminLocation = VpsAdminLocation(id: int, environmentId: int, environmentLabel: string)

  datatype Snapshot = Snapshot(entityKind: string, entityId: string, nodeId: int, vpsAdminLocationId: int)

  /** Configuration and stored snapshots; `hasGroup` tells whether a removed node's group can still be found. */
  datatype Inventory = Inventory(
    locations: seq<ConfiguredLocation>,
    vpsAdminLocations: map<int, VpsAdminLocation>,
    snapshots: seq<Snapshot>,
    hasGroup: Snapshot -> bool,
    normalized: string -> string)

  /** A node without a vpsAdmin location is at the location that lists it. */
  function EffectiveLocation(loc: ConfiguredLocation, node: Node): int {
    if node.locationId == 0 then loc.id else node.locationId
  }

  // ---- The indexes, by a scan of the inventory

  ghost predicate NamesNode(locations: seq<ConfiguredLocation>, key: HistoryKey) {
    exists loc, node :: loc in locations && node in loc.nodes && key == HistoryKey(ENTITY_NODE, node.name)
  }

  ghost predicate IsCurrentNode(inv: Inventory, key: HistoryKey) {
    NamesNode(inv.locations, key)
  }

  ghost predicate IsCurrentAt(locations: seq<ConfiguredLocation>, key: HistoryKey, l: int) {
    exists loc, node :: loc in locations && NodeIsAt(loc, node, key, l)
  }

  /** Location l is the node's own, or for want of one that of the list that names it. */
  ghost predicate NodeIsAt(loc: ConfiguredLocation, node: Node, key: HistoryKey, l: int) {
    && node in loc.nodes && key == HistoryKey(ENTITY_NODE, node.name)
    && (if node.locationId != 0 then l == node.locationId else l == loc.id)
  }

  ghost predicate IsArchivedSnapshot(inv: Inventory, s: Snapshot) {
    && s.entityKind == ENTITY_NODE && s.entityId != ""
    && !IsCurrentNode(inv, HistoryKey(ENTITY_NODE, s.entityId))
    && inv.hasGroup(s)
  }

  ghost predicate IsArchivedAt(inv: Inventory, snapshots: seq<Snapshot>, key: HistoryKey, l: int) {
    exists s :: s in snapshots && IsArchivedSnapshot(inv, s) && key == HistoryKey(ENTITY_NODE, s.entityId)
                && s.vpsAdminLocationId == l
  }

  ghost predicate IsArchivedNode(inv: Inventory, snapshots: seq<Snapshot>, key: HistoryKey) {
    exists s :: s in snapshots && IsArchivedSnapshot(inv, s) && key == HistoryKey(ENTITY_NODE, s.entityId)
  }

  /** The last of the nodes of this number. */
  ghost function LastNode(nodes: seq<Node>, id: int): Option<HistoryKey> {
    if nodes == [] then None
    else
      var node := nodes[|nodes| - 1];
      if node.id == id then Some(HistoryKey(ENTITY_NODE, node.name)) else LastNode(nodes[..|nodes| - 1], id)
  }

  /** The last of the current nodes of this number, location by location. */
  ghost function LastCurrent(locations: seq<ConfiguredLocation>, id: int): Option<HistoryKey> {
    if locations == [] then None
    else
      var node := LastNode(locations[|locations| - 1].nodes, id);
      if node.Some? then node else LastCurrent(locations[..|locations| - 1], id)
  }

  /** The last of the removed nodes of this number, or else of the current ones. */
  ghost function LastOfNumber(inv: Inventory, locations: seq<ConfiguredLocation>, snapshots: seq<Snapshot>, id: int)
    : Option<HistoryKey>
  {
    if snapshots == [] then LastCurrent(locations, id)
    else
      var s := snapshots[|snapshots| - 1];
      if IsArchivedSnapshot(inv, s) && s.nodeId == id then Some(HistoryKey(ENTITY_NODE, s.entityId))
      else LastOfNumber(inv, locations, snapshots[..|snapshots| - 1], id)
  }

  ghost predicate IsNumberIndex(m: map<int, HistoryKey>, inv: Inventory, locations: seq<ConfiguredLocation>,
                                snapshots: seq<Snapshot>) {
    && 0 !in m
    && forall id :: id != 0 ==>
         var last := LastOfNumber(inv, locations, snapshots, id);
         (id in m <==> last.Some?) && (id in m ==> m[id] == last.value)
  }

  // ---- Lists of keys under a number or a text

  function ListUnder<K>(m: map<K, seq<HistoryKey>>, k: K): seq<HistoryKey> {
    if k in m then m[k] else []
  }

  ghost predicate AllUnique<K(!new)>(m: map<K, seq<HistoryKey>>) {
    forall k :: k in m ==> Sorting.Unique(m[k])
  }

  function AddUniqueHistoryKey(dst: seq<HistoryKey>, key: HistoryKey): seq<HistoryKey> {
    if key in dst then dst else dst + [key]
  }

  method AddUniqueHistoryKeys(dst: seq<HistoryKey>, keys: seq<HistoryKey>) returns (ret: seq<HistoryKey>)
    requires Sorting.Unique(dst)
    ensures dst <= ret && Sorting.Unique(ret)
    ensures forall key :: key in ret <==> key in dst || key in keys
  {
    ret := dst;
    for i := 0 to |keys|
      invariant dst <= ret && Sorting.Unique(ret)
      invariant forall key :: key in ret <==> key in dst || key in keys[..i]
    {
      assert keys[..i + 1] == keys[..i] + [keys[i]];
      ret := AddUniqueHistoryKey(ret, keys[i]);
    }
    assert keys[..|keys|] == keys;
  }

  method AddUniqueHistoryKeysUnder<K(!new, ==)>(m: map<K, seq<HistoryKey>>, k: K, keys: seq<HistoryKey>)
    returns (ret: map<K, seq<HistoryKey>>)
    requires AllUnique(m)
    ensures AllUnique(ret)
    ensures forall i :: i != k ==> ListUnder(ret, i) == ListUnder(m, i)
    ensures forall key :: key in ListUnder(ret, k) <==> key in ListUnder(m, k) || key in keys
  {
    var list := AddUniqueHistoryKeys(ListUnder(m, k), keys);
    ret := m[k := list];
  }

  // ---- The mapping

  class HistoryEntityMapping {
    var currentNodeKeys: set<HistoryKey>
    var nodeIDKeys: map<int, HistoryKey>
    var allNodeKeys: seq<HistoryKey>
    var locationIDNodeKeys: map<int, seq<HistoryKey>>
    var environmentIDNodeKeys: map<int, seq<HistoryKey>>
    var environmentTextNodeKeys: map<string, seq<HistoryKey>>
    var archivedNodes: set<HistoryKey>

    /** The node indexes hold what the first locations and snapshots say. */
    ghost predicate Indexes(inv: Inventory, locations: seq<ConfiguredLocation>, snapshots: seq<Snapshot>)
      reads this
    {
      && Sorting.Unique(allNodeKeys)
      && AllUnique(locationIDNodeKeys)
      && (forall l, key :: key in ListUnder(locationIDNodeKeys, l) <==>
            l != 0 && (IsCurrentAt(locations, key, l) || IsArchivedAt(inv, snapshots, key, l)))
      && (forall key :: key in allNodeKeys <==> key in currentNodeKeys || key in archivedNodes)
      && (forall key :: key in archivedNodes <==> IsArchivedNode(inv, snapshots, key))
      && IsNumberIndex(nodeIDKeys, inv, locations, snapshots)
    }

    method AddNodeMapping(key: HistoryKey, nodeID: int, locationID: int)
      requires Sorting.Unique(allNodeKeys) && AllUnique(locationIDNodeKeys)
      modifies this`allNodeKeys, this`nodeIDKeys, this`locationIDNodeKeys
      ensures Sorting.Unique(allNodeKeys) && AllUnique(locationIDNodeKeys)
      ensures forall k :: k in allNodeKeys <==> k in old(allNodeKeys) || k == key
      ensures nodeIDKeys == if nodeID != 0 then old(nodeIDKeys)[nodeID := key] else old(nodeIDKeys)
      ensures forall l, k :: k in ListUnder(locationIDNodeKeys, l) <==>
                k in ListUnder(old(locationIDNodeKeys), l) || (locationID != 0 && l == locationID && k == key)
    {
      allNodeKeys := AddUniqueHistoryKey(allNodeKeys, key);
      if nodeID != 0 {
        nodeIDKeys := nodeIDKeys[nodeID := key];
      }
      if locationID != 0 {
        locationIDNodeKeys := locationIDNodeKeys[
          locationID := AddUniqueHistoryKey(ListUnder(locationIDNodeKeys, locationID), key)];
      }
    }

    /** All the current nodes, location by location. */
    method AddCurrentNodes(inv: Inventory)
      requires Sorting.Unique(allNodeKeys) && allNodeKeys == [] && currentNodeKeys == {} && archivedNodes == {}
      requires locationIDNodeKeys == map[] && nodeIDKeys == map[]
      modifies this`currentNodeKeys, this`allNodeKeys, this`nodeIDKeys, this`locationIDNodeKeys
      ensures Indexes(inv, inv.locations, [])
      ensures forall key :: key in currentNodeKeys <==> IsCurrentNode(inv, key)
    {
      for i := 0 to |inv.locations|
        invariant Indexes(inv, inv.locations[..i], [])
        invariant forall key :: key in currentNodeKeys <==> NamesNode(inv.locations[..i], key)
      {
        var loc := inv.locations[i];
        var before := inv.locations[..i];
        assert inv.locations[..i + 1] == before + [loc];
        NoNodesYet(before, loc);
        for j := 0 to |loc.nodes|
          invariant Indexes(inv, before + [loc.(nodes := loc.nodes[..j])], [])
          invariant forall key :: key in currentNodeKeys <==> NamesNode(before + [loc.(nodes := loc.nodes[..j])], key)
        {
          var node := loc.nodes[j];
          var key := NodeKey(node.name);
          OneMoreNode(before, loc, j);
          NumberIndexOfOneMoreNode(nodeIDKeys, inv, before, loc, j);
          currentNodeKeys := currentNodeKeys + {key};
          AddNodeMapping(key, node.id, EffectiveLocation(loc, node));
        }
        assert loc.(nodes := loc.nodes[..|loc.nodes|]) == loc;
      }
      assert inv.locations[..|inv.locations|] == inv.locations;
    }

    /** The removed nodes that a stored snapshot still places in a group. */
    method AddArchivedNodes(inv: Inventory)
      requires Indexes(inv, inv.locations, []) && forall key :: key in currentNodeKeys <==> IsCurrentNode(inv, key)
      modifies this`archivedNodes, this`allNodeKeys, this`nodeIDKeys, this`locationIDNodeKeys
      ensures Indexes(inv, inv.locations, inv.snapshots)
    {
      for i := 0 to |inv.snapshots|
        invariant Indexes(inv, inv.locations, inv.snapshots[..i])
      {
        var snapshot := inv.snapshots[i];
        assert inv.snapshots[..i + 1] == inv.snapshots[..i] + [snapshot];
        UselessSnapshot(inv, inv.snapshots[..i], snapshot);
        if snapshot.entityKind != ENTITY_NODE || snapshot.entityId == "" {
          continue;
        }
        var key := NodeKey(snapshot.entityId);
        if key in currentNodeKeys {
          continue;
        }
        if !inv.hasGroup(snapshot) {
          continue;
        }
        OneMoreSnapshot(inv, inv.snapshots[..i], snapshot);
        archivedNodes := archivedNodes + {key};
        AddNodeMapping(key, snapshot.nodeId, snapshot.vpsAdminLocationId);
        AddNodeMapping(key, 0, snapshot.vpsAdminLocationId);
      }
      assert inv.snapshots[..|inv.snapshots|] == inv.snapshots;
    }

    /** Environments gather the keys of their locations, in whatever order the map of locations is walked. */
    method AddEnvironmentMappings(inv: Inventory)
      requires environmentIDNodeKeys == map[] && environmentTextNodeKeys == map[]
      modifies this`environmentIDNodeKeys, this`environmentTextNodeKeys
      ensures AllUnique(environmentIDNodeKeys) && AllUnique(environmentTextNodeKeys)
      ensures forall e, key :: key in ListUnder(environmentIDNodeKeys, e) <==>
                IsInEnvironment(locationIDNodeKeys, inv.vpsAdminLocations.Values, e, key)
      ensures forall text, key :: key in ListUnder(environmentTextNodeKeys, text) <==>
                IsInEnvironmentNamed(inv, locationIDNodeKeys, inv.vpsAdminLocations.Values, text, key)
    {
      var remaining := inv.vpsAdminLocations.Values;
      ghost var walked: set<VpsAdminLocation> := {};
      while remaining != {}
        invariant walked + remaining == inv.vpsAdminLocations.Values
        invariant AllUnique(environmentIDNodeKeys) && AllUnique(environmentTextNodeKeys)
        invariant forall e, key :: key in ListUnder(environmentIDNodeKeys, e) <==>
                    IsInEnvironment(locationIDNodeKeys, walked, e, key)
        invariant forall text, key :: key in ListUnder(environmentTextNodeKeys, text) <==>
                    IsInEnvironmentNamed(inv, locationIDNodeKeys, walked, text, key)
        decreases remaining
      {
        var loc :| loc in remaining;
        remaining := remaining - {loc};
        OneMoreInEnvironments(inv, locationIDNodeKeys, walked, loc);
        walked := walked + {loc};
        var keys := ListUnder(locationIDNodeKeys, loc.id);
        if |keys| == 0 {
          continue;
        }
        if loc.environmentId != 0 {
          environmentIDNodeKeys := AddUniqueHistoryKeysUnder(environmentIDNodeKeys, loc.environmentId, keys);
        }
        if loc.environmentLabel != "" {
          environmentTextNodeKeys :=
            AddUniqueHistoryKeysUnder(environmentTextNodeKeys, inv.normalized(loc.environmentLabel), keys);
        }
      }
    }

    constructor (inv: Inventory)
      ensures forall key :: key in currentNodeKeys <==> IsCurrentNode(inv, key)
      ensures Indexes(inv, inv.locations, inv.snapshots)
      ensures archivedNodes !! currentNodeKeys
      ensures AllUnique(environmentIDNodeKeys) && AllUnique(environmentTextNodeKeys)
      ensures forall e, key :: key in ListUnder(environmentIDNodeKeys, e) <==>
                IsInEnvironment(locationIDNodeKeys, inv.vpsAdminLocations.Values, e, key)
      ensures forall text, key :: key in ListUnder(environmentTextNodeKeys, text) <==>
                IsInEnvironmentNamed(inv, locationIDNodeKeys, inv.vpsAdminLocations.Values, text, key)
    {
      currentNodeKeys, archivedNodes, allNodeKeys, nodeIDKeys := {}, {}, [], map[];
      locationIDNodeKeys, environmentIDNodeKeys, environmentTextNodeKeys := map[], map[], map[];
      new;
      AddCurrentNodes(inv);
      AddArchivedNodes(inv);
      AddEnvironmentMappings(inv);
    }
  }

  /** Some location of the environment has the node. */
  ghost predicate IsInEnvironment(lists: map<int, seq<HistoryKey>>, locations: set<VpsAdminLocation>, e: int,
                                  key: HistoryKey) {
    e != 0 && exists loc :: loc in locations && loc.environmentId == e && key in ListUnder(lists, loc.id)
  }

  ghost predicate IsInEnvironmentNamed(inv: Inventory, lists: map<int, seq<HistoryKey>>,
                                       locations: set<VpsAdminLocation>, text: string, key: HistoryKey) {
    exists loc :: loc in locations && loc.environmentLabel != "" && inv.normalized(loc.environmentLabel) == text
                  && key in ListUnder(lists, loc.id)
  }

  lemma OneMoreNode(before: seq<ConfiguredLocation>, loc: ConfiguredLocation, j: nat)
    requires j < |loc.nodes|
    ensures var prior, node := before + [loc.(nodes := loc.nodes[..j])], loc.nodes[j];
            var next := before + [loc.(nodes := loc.nodes[..j + 1])];
            && (forall key, l :: IsCurrentAt(next, key, l) <==>
                  IsCurrentAt(prior, key, l) || (key == NodeKey(node.name) && l == EffectiveLocation(loc, node)))
            && (forall key :: NamesNode(next, key) <==> NamesNode(prior, key) || key == NodeKey(node.name))
            && (forall id :: LastCurrent(next, id)
                  == if node.id == id then Some(NodeKey(node.name)) else LastCurrent(prior, id))
  {
    forall id
      ensures LastCurrent(before + [loc.(nodes := loc.nodes[..j + 1])], id)
           == if loc.nodes[j].id == id then Some(NodeKey(loc.nodes[j].name))
              else LastCurrent(before + [loc.(nodes := loc.nodes[..j])], id)
    {
      assert loc.nodes[..j + 1][..j] == loc.nodes[..j];
    }
    var a, b, node := loc.(nodes := loc.nodes[..j]), loc.(nodes := loc.nodes[..j + 1]), loc.nodes[j];
    assert b.nodes == a.nodes + [node];
    forall key, l
      ensures IsCurrentAt(before + [b], key, l) <==>
                IsCurrentAt(before + [a], key, l) || (key == NodeKey(node.name) && l == EffectiveLocation(loc, node))
    {
      assert NodeIsAt(b, node, key, l) <==> key == NodeKey(node.name) && l == EffectiveLocation(loc, node);
      assert forall x :: NodeIsAt(b, x, key, l) <==> NodeIsAt(a, x, key, l) || (x == node && NodeIsAt(b, node, key, l));
    }
  }

  lemma NumberIndexOfOneMoreNode(m: map<int, HistoryKey>, inv: Inventory, before: seq<ConfiguredLocation>,
                                 loc: ConfiguredLocation, j: nat)
    requires j < |loc.nodes| && IsNumberIndex(m, inv, before + [loc.(nodes := loc.nodes[..j])], [])
    ensures var node, next := loc.nodes[j], before + [loc.(nodes := loc.nodes[..j + 1])];
            IsNumberIndex(if node.id != 0 then m[node.id := NodeKey(node.name)] else m, inv, next, [])
  {
    OneMoreNode(before, loc, j);
  }

  /** A location without nodes says nothing. */
  lemma NoNodesYet(before: seq<ConfiguredLocation>, loc: ConfiguredLocation)
    ensures var next := before + [loc.(nodes := loc.nodes[..0])];
            && (forall key, l :: IsCurrentAt(next, key, l) <==> IsCurrentAt(before, key, l))
            && (forall key :: NamesNode(next, key) <==> NamesNode(before, key))
            && (forall id :: LastCurrent(next, id) == LastCurrent(before, id))
  {
    assert (before + [loc.(nodes := [])])[..|before|] == before;
  }

  /** What the indexes of the nodes say of one more snapshot of a removed node. */
  lemma OneMoreSnapshot(inv: Inventory, before: seq<Snapshot>, s: Snapshot)
    requires IsArchivedSnapshot(inv, s)
    ensures forall key, l :: IsArchivedAt(inv, before + [s], key, l) <==>
              IsArchivedAt(inv, before, key, l) || (key == NodeKey(s.entityId) && l == s.vpsAdminLocationId)
    ensures forall key :: IsArchivedNode(inv, before + [s], key) <==>
              IsArchivedNode(inv, before, key) || key == NodeKey(s.entityId)
    ensures forall id :: LastOfNumber(inv, inv.locations, before + [s], id)
                      == if s.nodeId == id then Some(NodeKey(s.entityId))
                         else LastOfNumber(inv, inv.locations, before, id)
  {
    assert (before + [s])[..|before|] == before;
  }

  /** Any other snapshot says nothing. */
  lemma UselessSnapshot(inv: Inventory, before: seq<Snapshot>, s: Snapshot)
    ensures !IsArchivedSnapshot(inv, s) ==>
              && (forall key, l :: IsArchivedAt(inv, before + [s], key, l) <==> IsArchivedAt(inv, before, key, l))
              && (forall key :: IsArchivedNode(inv, before + [s], key) <==> IsArchivedNode(inv, before, key))
              && (forall id :: LastOfNumber(inv, inv.locations, before + [s], id)
                    == LastOfNumber(inv, inv.locations, before, id))
  {
    assert (before + [s])[..|before|] == before;
  }

  lemma OneMoreInEnvironments(inv: Inventory, lists: map<int, seq<HistoryKey>>, walked: set<VpsAdminLocation>,
                              loc: VpsAdminLocation)
    ensures forall e, key :: IsInEnvironment(lists, walked + {loc}, e, key) <==>
              IsInEnvironment(lists, walked, e, key)
                || (e != 0 && loc.environmentId == e && key in ListUnder(lists, loc.id))
    ensures forall text, key :: IsInEnvironmentNamed(inv, lists, walked + {loc}, text, key) <==>
              IsInEnvironmentNamed(inv, lists, walked, text, key)
              || (loc.environmentLabel != "" && inv.normalized(loc.environmentLabel) == text
                && key in ListUnder(lists, loc.id))
  {
  }

}
