/**
 The topology tables, the in-memory `ServiceGraph` that caches them, and one cycle of the
 discovery loop.
*/
module TopologyStore {
  import opened Wrappers
  import opened Collections
  import opened Topology

  datatype EdgeKey = EdgeKey(fromEntity: EntityId, toEntity: EntityId, edgeType: string)

  type EdgeTable = map<EdgeKey, Edge>

  function KeyOf(e: Edge): EdgeKey {
    EdgeKey(e.fromEntity, e.toEntity, e.edgeType)
  }

  ghost predicate EdgesKeyed(edges: EdgeTable) {
    forall k :: k in edges ==> KeyOf(edges[k]) == k
  }

  /** The row that `upsert_node` leaves behind; `now` replaces whatever `lastSeen` the caller sent. */
  function MergedNode(existing: Option<Node>, node: Node, now: int): Node {
    if existing.Some? && existing.value.manuallyEdited && !node.manuallyEdited
    then existing.value.(lastSeen := Some(now))
    else node.(lastSeen := Some(now))
  }

  function MergedEdge(existing: Option<Edge>, edge: Edge, now: int): Edge {
    if existing.Some? && existing.value.manuallyEdited && !edge.manuallyEdited
    then existing.value.(lastSeen := Some(now))
    else edge.(lastSeen := Some(now))
  }

  function Find<K, V>(m: map<K, V>, k: K): Option<V> {
    if k in m then Some(m[k]) else None
  }

  function UpsertNodeTo(nodes: Nodes, node: Node, now: int): Nodes {
    nodes[node.entityId := MergedNode(Find(nodes, node.entityId), node, now)]
  }

  function UpsertEdgeTo(edges: EdgeTable, edge: Edge, now: int): EdgeTable {
    edges[KeyOf(edge) := MergedEdge(Find(edges, KeyOf(edge)), edge, now)]
  }

  /** Would `prune_stale_nodes` delete this row? */
  predicate Stale(n: Node, now: int, maxAge: int, entityType: Option<string>) {
    && !n.manuallyEdited
    && (n.lastSeen == None || now - n.lastSeen.value > maxAge)
    && (entityType == None || n.entityType == entityType.value)
  }

  function StaleIds(nodes: Nodes, now: int, maxAge: int, entityType: Option<string>): set<EntityId> {
    set id | id in nodes && Stale(nodes[id], now, maxAge, entityType)
  }

  function WithoutNodes(nodes: Nodes, ids: set<EntityId>): Nodes {
    nodes - ids
  }

  function WithoutEdgesAt(edges: EdgeTable, ids: set<EntityId>): EdgeTable {
    map k | k in edges && k.fromEntity !in ids && k.toEntity !in ids :: edges[k]
  }

  class TopologyStore {
    var nodes: Nodes
    var edges: EdgeTable

    ghost predicate Valid()
      reads this
    {
      Keyed(nodes) && EdgesKeyed(edges)
    }

    constructor ()
      ensures Valid() && nodes == map[] && edges == map[]
    {
      nodes, edges := map[], map[];
    }

    method GetNode(id: EntityId) returns (node: Option<Node>)
      ensures node == Find(nodes, id)
    {
      node := if id in nodes then Some(nodes[id]) else None;
    }

    method ListEdges() returns (list: seq<Edge>)
      requires Valid()
      ensures Enumerates(list, edges.Values)
    {
      list := Enumerate(edges.Values);
    }

    method UpsertNode(node: Node, now: int)
      requires Valid()
      modifies this
      ensures Valid() && edges == old(edges)
      ensures nodes == UpsertNodeTo(old(nodes), node, now)
      ensures node.manuallyEdited ==> nodes == old(nodes)[node.entityId := node.(lastSeen := Some(now))]
    {
      var existing := GetNode(node.entityId);
      if existing == None {
        nodes := nodes[node.entityId := node.(lastSeen := Some(now))];
      } else if existing.value.manuallyEdited && !node.manuallyEdited {
        nodes := nodes[node.entityId := nodes[node.entityId].(lastSeen := Some(now))];
      } else {
        nodes := nodes[node.entityId := nodes[node.entityId].(
          entityType := node.entityType, displayName := node.displayName, hostIp := node.hostIp,
          source := node.source, manuallyEdited := node.manuallyEdited, lastSeen := Some(now),
          metadata := node.metadata)];
      }
    }

    method UpsertEdge(edge: Edge, now: int)
      requires Valid()
      modifies this
      ensures Valid() && nodes == old(nodes)
      ensures edges == UpsertEdgeTo(old(edges), edge, now)
      ensures edge.manuallyEdited ==> edges == old(edges)[KeyOf(edge) := edge.(lastSeen := Some(now))]
    {
      var key := KeyOf(edge);
      if key !in edges {
        edges := edges[key := edge.(lastSeen := Some(now))];
      } else if edges[key].manuallyEdited && !edge.manuallyEdited {
        edges := edges[key := edges[key].(lastSeen := Some(now))];
      } else {
        edges := edges[key := edges[key].(
          source := edge.source, manuallyEdited := edge.manuallyEdited, lastSeen := Some(now))];
      }
    }

    /** Deletes the stale automatic nodes and every edge that touches one. */
    method PruneStaleNodes(now: int, maxAge: int, entityType: Option<string>) returns (pruned: seq<EntityId>)
      requires Valid()
      modifies this
      ensures Valid()
      ensures forall id :: id in pruned <==>
        && id in old(nodes) && !old(nodes)[id].manuallyEdited
        && (old(nodes)[id].lastSeen == None || now - old(nodes)[id].lastSeen.value > maxAge)
        && (entityType == None || entityType == Some(old(nodes)[id].entityType))
      ensures Enumerates(pruned, StaleIds(old(nodes), now, maxAge, entityType))
      ensures nodes == WithoutNodes(old(nodes), StaleIds(old(nodes), now, maxAge, entityType))
      ensures edges == WithoutEdgesAt(old(edges), StaleIds(old(nodes), now, maxAge, entityType))
    {
      var ids := StaleIds(nodes, now, maxAge, entityType);
      pruned := Enumerate(ids);
      if pruned == [] {
        assert forall id :: id in ids ==> id in pruned;
        assert edges == WithoutEdgesAt(edges, ids);
        return;
      }
      edges := WithoutEdgesAt(edges, ids);
      nodes := WithoutNodes(nodes, ids);
    }
  }
}

module ServiceGraph {
  import opened Wrappers
  import opened Collections
  import opened Topology
  import opened TopologyStore

  datatype Subject = OfNode(id: EntityId) | OfEdge(fromEntity: EntityId, toEntity: EntityId)
  datatype DiffAction = Added | Updated | Pruned
  datatype Diff = Diff(action: DiffAction, subject: Subject)

  const DEPENDENCY_TYPES: seq<string> :=
    ["depends_on", "proxies_to", "runs_on", "connects_via", "forwards_to", "resolves_via", "runs_in"]

  // ----- The indexes, recounted from nodes and edges -----

  type Index<K> = map<K, seq<EntityId>>

  function Get<K>(index: Index<K>, k: K): seq<EntityId> {
    if k in index then index[k] else []
  }

  function Push<K>(index: Index<K>, k: K, id: EntityId): Index<K> {
    index[k := Get(index, k) + [id]]
  }

  predicate HasIp(n: Node) {
    n.hostIp.Some? && n.hostIp.value != ""
  }

  /** The ids among `ids` hosted at `ip`. */
  ghost function HostedAt(nodes: Nodes, ids: set<EntityId>, ip: string): set<EntityId> {
    set id | id in ids && id in nodes && ip != "" && nodes[id].hostIp == Some(ip)
  }

  /** What the dependency edges say `id` depends on, in edge order. */
  function DependsOn(edges: seq<Edge>, id: EntityId): seq<EntityId> {
    if edges == [] then []
    else
      var e := edges[|edges| - 1];
      DependsOn(edges[..|edges| - 1], id) +
      if e.edgeType in DEPENDENCY_TYPES && e.fromEntity == id then [e.toEntity] else []
  }

  ghost predicate IpIndexMatches(nodes: Nodes, ids: set<EntityId>, index: Index<string>) {
    forall ip :: Enumerates(Get(index, ip), HostedAt(nodes, ids, ip))
  }

  ghost predicate DepsMatch(edges: seq<Edge>, index: Index<EntityId>) {
    forall id :: Get(index, id) == DependsOn(edges, id)
  }

  // ----- Merging discovered nodes and edges -----

  /** Memory, table and diffs part-way through a merge. */
  datatype Merge = Merge(memory: Nodes, table: Nodes, diffs: seq<Diff>)

  function NodeDiff(existing: Option<Node>, node: Node): seq<Diff> {
    match existing
    case None => [Diff(Added, OfNode(node.entityId))]
    case Some(row) =>
      if row.manuallyEdited && !node.manuallyEdited then [Diff(Updated, OfNode(node.entityId))]
      else if row.hostIp != node.hostIp || row.displayName != node.displayName || row.entityType != node.entityType
      then [Diff(Updated, OfNode(node.entityId))]
      else []
  }

  /** The first `n` discovered nodes merged; `clock(i)` is the time read for the i-th. */
  function MergeNodes(start: Merge, nodes: seq<Node>, clock: nat -> int): Merge {
    if nodes == [] then start
    else
      var n := |nodes| - 1;
      var m := MergeNodes(start, nodes[..n], clock);
      var table := UpsertNodeTo(m.table, nodes[n], clock(n));
      Merge(m.memory[nodes[n].entityId := table[nodes[n].entityId]],
            table,
            m.diffs + NodeDiff(Find(m.memory, nodes[n].entityId), nodes[n]))
  }

  function MergeEdges(table: EdgeTable, edges: seq<Edge>, clock: nat -> int, first: nat): EdgeTable {
    if edges == [] then table
    else
      var n := |edges| - 1;
      UpsertEdgeTo(MergeEdges(table, edges[..n], clock, first), edges[n], clock(first + n))
  }

  /** New edges are those no edge known before the merge has the key of. */
  function EdgeDiffs(known: seq<Edge>, edges: seq<Edge>): seq<Diff> {
    if edges == [] then []
    else
      var e := edges[|edges| - 1];
      EdgeDiffs(known, edges[..|edges| - 1]) +
      if HasKey(known, KeyOf(e)) then [] else [Diff(Added, OfEdge(e.fromEntity, e.toEntity))]
  }

  predicate HasKey(edges: seq<Edge>, key: EdgeKey) {
    exists i :: 0 <= i < |edges| && KeyOf(edges[i]) == key
  }

  class ServiceGraph {
    var nodes: Nodes
    var edges: seq<Edge>
    var ipToEntities: Index<string>
    var entityToDeps: Index<EntityId>
    var entityToDependents: Index<EntityId>

    ghost predicate IndexesMatch()
      reads this
    {
      && IpIndexMatches(nodes, nodes.Keys, ipToEntities)
      && DepsMatch(edges, entityToDeps)
      && DepsMatch(Reverse(edges), entityToDependents)
    }

    ghost predicate Valid()
      reads this
    {
      Keyed(nodes) && IndexesMatch()
    }

    /** Memory holds what the store holds. */
    ghost predicate Agrees(store: TopologyStore)
      reads this, store
    {
      nodes == store.nodes && Enumerates(edges, store.edges.Values)
    }

    constructor ()
      ensures Valid() && nodes == map[] && edges == []
    {
      nodes, edges := map[], [];
      ipToEntities, entityToDeps, entityToDependents := map[], map[], map[];
    }

    method RebuildIndexes()
      modifies this
      ensures IndexesMatch() && nodes == old(nodes) && edges == old(edges)
    {
      ipToEntities := IndexByIp(nodes);
      entityToDeps, entityToDependents := IndexDependencies(edges);
    }

    method LoadFromDb(store: TopologyStore)
      requires store.Valid()
      modifies this
      ensures Valid() && Agrees(store)
    {
      nodes := store.nodes;
      edges := store.ListEdges();
      RebuildIndexes();
    }

    method MergeNodeList(newNodes: seq<Node>, store: TopologyStore, clock: nat -> int) returns (diffs: seq<Diff>)
      requires Keyed(nodes) && store.Valid()
      modifies this`nodes, store
      ensures Keyed(nodes) && store.Valid() && store.edges == old(store.edges)
      ensures Merge(nodes, store.nodes, diffs) == MergeNodes(Merge(old(nodes), old(store.nodes), []), newNodes, clock)
    {
      diffs := [];
      ghost var start := Merge(nodes, store.nodes, []);
      for i := 0 to |newNodes|
        invariant Keyed(nodes) && store.Valid() && store.edges == old(store.edges)
        invariant Merge(nodes, store.nodes, diffs) == MergeNodes(start, newNodes[..i], clock)
      {
        var node := newNodes[i];
        assert newNodes[..i + 1][..i] == newNodes[..i];
        if node.entityId !in nodes {
          diffs := diffs + [Diff(Added, OfNode(node.entityId))];
        } else {
          var existing := nodes[node.entityId];
          if existing.manuallyEdited && !node.manuallyEdited {
            diffs := diffs + [Diff(Updated, OfNode(node.entityId))];
          } else if existing.hostIp != node.hostIp || existing.displayName != node.displayName
                    || existing.entityType != node.entityType {
            diffs := diffs + [Diff(Updated, OfNode(node.entityId))];
          }
        }
        store.UpsertNode(node, clock(i));
        var refreshed := store.GetNode(node.entityId);
        if refreshed.Some? {
          nodes := nodes[node.entityId := refreshed.value];
        }
      }
      assert newNodes[..|newNodes|] == newNodes;
    }

    method MergeEdgeList(newEdges: seq<Edge>, store: TopologyStore, clock: nat -> int, first: nat) returns (diffs: seq<Diff>)
      requires store.Valid()
      modifies store
      ensures store.Valid() && store.nodes == old(store.nodes)
      ensures store.edges == MergeEdges(old(store.edges), newEdges, clock, first)
      ensures diffs == EdgeDiffs(edges, newEdges)
    {
      diffs := [];
      for j := 0 to |newEdges|
        invariant store.Valid() && store.nodes == old(store.nodes)
        invariant diffs == EdgeDiffs(edges, newEdges[..j])
        invariant store.edges == MergeEdges(old(store.edges), newEdges[..j], clock, first)
      {
        var edge := newEdges[j];
        assert newEdges[..j + 1][..j] == newEdges[..j];
        if !HasKey(edges, KeyOf(edge)) {
          diffs := diffs + [Diff(Added, OfEdge(edge.fromEntity, edge.toEntity))];
        }
        store.UpsertEdge(edge, clock(first + j));
      }
      assert newEdges[..|newEdges|] == newEdges;
    }

    /** Upserts what discovery reported and refreshes memory from the rows that resulted. */
    method MergeDiscovered(newNodes: seq<Node>, newEdges: seq<Edge>, store: TopologyStore, clock: nat -> int)
        returns (diffs: seq<Diff>)
      requires Valid() && store.Valid()
      modifies this, store
      ensures Valid() && store.Valid()
      ensures
        var m := MergeNodes(Merge(old(nodes), old(store.nodes), []), newNodes, clock);
        && nodes == m.memory
        && store.nodes == m.table
        && diffs == m.diffs + EdgeDiffs(old(edges), newEdges)
      ensures store.edges == MergeEdges(old(store.edges), newEdges, clock, |newNodes|)
      ensures Enumerates(edges, store.edges.Values)
    {
      diffs := MergeNodeList(newNodes, store, clock);
      var edgeDiffs := MergeEdgeList(newEdges, store, clock, |newNodes|);
      diffs := diffs + edgeDiffs;
      edges := store.ListEdges();
      RebuildIndexes();
    }

    /** Drops pruned ids from memory; edges are reloaded only when some id was there to drop. */
    method RemovePruned(pruned: seq<EntityId>, store: TopologyStore) returns (diffs: seq<Diff>)
      requires Valid() && store.Valid()
      modifies this
      ensures Valid()
      ensures nodes == WithoutNodes(old(nodes), set id | id in pruned)
      ensures if exists id :: id in pruned && id in old(nodes) then Enumerates(edges, store.edges.Values) else edges == old(edges)
      ensures forall d :: d in diffs <==> d.action == Pruned && d.subject.OfNode? && d.subject.id in pruned && d.subject.id in old(nodes)
      ensures forall i, j :: 0 <= i < j < |diffs| ==> diffs[i] != diffs[j]
    {
      diffs := [];
      for i := 0 to |pruned|
        invariant nodes == WithoutNodes(old(nodes), set id | id in pruned[..i])
        invariant forall d :: d in diffs <==>
            d.action == Pruned && d.subject.OfNode? && d.subject.id in pruned[..i] && d.subject.id in old(nodes)
        invariant forall i, j :: 0 <= i < j < |diffs| ==> diffs[i] != diffs[j]
        invariant edges == old(edges) && ipToEntities == old(ipToEntities)
        invariant entityToDeps == old(entityToDeps) && entityToDependents == old(entityToDependents)
      {
        var id := pruned[i];
        if id in nodes {
          nodes := WithoutNodes(nodes, {id});
          assert Diff(Pruned, OfNode(id)) !in diffs;
          diffs := diffs + [Diff(Pruned, OfNode(id))];
        }
      }
      assert pruned[..|pruned|] == pruned;
      if diffs != [] {
        assert diffs[0] in diffs;
        edges := store.ListEdges();
        RebuildIndexes();
      } else {
        assert forall id :: id in pruned && id in old(nodes) ==> Diff(Pruned, OfNode(id)) in diffs;
        assert nodes == old(nodes);
      }
    }

    /** `depends_on`, answered from the index. */
    method DependenciesOf(id: EntityId) returns (ids: seq<EntityId>)
      requires Valid()
      ensures ids == DependsOn(edges, id)
    {
      ids := Get(entityToDeps, id);
    }

    /** `dependents_of`, answered from the index. */
    method DependentsOf(id: EntityId) returns (ids: seq<EntityId>)
      requires Valid()
      ensures ids == DependsOn(Reverse(edges), id)
    {
      ids := Get(entityToDependents, id);
    }

    /** `services_on_host`, answered from the index. */
    method ServicesOnHost(ip: string) returns (ids: seq<EntityId>)
      requires Valid()
      ensures Enumerates(ids, HostedAt(nodes, nodes.Keys, ip))
    {
      ids := Get(ipToEntities, ip);
    }
  }

  /** The second half of the discovery loop's body: prune containers, prune stacks, drop what was pruned from memory. */
  method PruneStale(graph: ServiceGraph, store: TopologyStore, containersAt: int, stacksAt: int, staleAge: int)
    requires graph.Valid() && store.Valid() && graph.Agrees(store)
    modifies graph, store
    ensures graph.Valid() && store.Valid() && graph.Agrees(store)
    ensures Tables(store.nodes, store.edges)
         == AfterPruning(Tables(old(store.nodes), old(store.edges)), containersAt, stacksAt, staleAge)
  {
    ghost var t := Tables(store.nodes, store.edges);
    var pruned := store.PruneStaleNodes(containersAt, staleAge, Some("container"));
    ghost var containers := set id | id in pruned;
    assert containers == StaleIds(t.nodes, containersAt, staleAge, Some("container"));
    var stacks := store.PruneStaleNodes(stacksAt, staleAge, Some("stack"));
    ghost var gone := set id | id in pruned + stacks;
    assert gone == containers + set id | id in stacks;
    pruned := pruned + stacks;
    assert store.nodes == WithoutNodes(t.nodes, gone);
    if pruned != [] {
      assert pruned[0] in pruned && pruned[0] in t.nodes;
      var diffs := graph.RemovePruned(pruned, store);
    } else {
      assert store.edges == t.edges;
    }
  }

  /** The body of the discovery loop. */
  method RunDiscoveryCycle(graph: ServiceGraph, store: TopologyStore, c: Cycle, interval: int)
    requires graph.Valid() && store.Valid() && graph.Agrees(store)
    modifies graph, store
    ensures graph.Valid() && store.Valid() && graph.Agrees(store)
    ensures Tables(store.nodes, store.edges) == AfterCycle(Tables(old(store.nodes), old(store.edges)), c, interval)
  {
    ghost var t := Tables(store.nodes, store.edges);
    MergeKeepsAgreement(Merge(t.nodes, t.nodes, []), c.nodes, c.clock);
    if c.nodes != [] || c.edges != [] {
      var diffs := graph.MergeDiscovered(c.nodes, c.edges, store, c.clock);
    }
    PruneStale(graph, store, c.containersAt, c.stacksAt, interval * 2);
  }

  /** One cycle's inputs: what the adapters report and the clock readings taken along the way. */
  datatype Cycle = Cycle(nodes: seq<Node>, edges: seq<Edge>, clock: nat -> int, containersAt: int, stacksAt: int)

  datatype Tables = Tables(nodes: Nodes, edges: EdgeTable)

  function PruneTables(t: Tables, ids: set<EntityId>): Tables {
    Tables(WithoutNodes(t.nodes, ids), WithoutEdgesAt(t.edges, ids))
  }

  function MergeTables(t: Tables, c: Cycle): Tables {
    Tables(MergeNodes(Merge(t.nodes, t.nodes, []), c.nodes, c.clock).table,
           MergeEdges(t.edges, c.edges, c.clock, |c.nodes|))
  }

  function AfterPruning(t: Tables, containersAt: int, stacksAt: int, staleAge: int): Tables {
    var pruned := PruneTables(t, StaleIds(t.nodes, containersAt, staleAge, Some("container")));
    PruneTables(pruned, StaleIds(pruned.nodes, stacksAt, staleAge, Some("stack")))
  }

  function AfterCycle(t: Tables, c: Cycle, interval: int): Tables {
    AfterPruning(MergeTables(t, c), c.containersAt, c.stacksAt, interval * 2)
  }

  lemma {:induction false} MergeKeepsAgreement(start: Merge, nodes: seq<Node>, clock: nat -> int)
    requires start.memory == start.table
    ensures MergeNodes(start, nodes, clock).memory == MergeNodes(start, nodes, clock).table
  {
    if nodes != [] {
      MergeKeepsAgreement(start, nodes[..|nodes| - 1], clock);
    }
  }

  method IndexByIp(nodes: Nodes) returns (index: Index<string>)
    ensures IpIndexMatches(nodes, nodes.Keys, index)
  {
    index := map[];
    var ids := Enumerate(nodes.Keys);
    ghost var done: set<EntityId> := {};
    for i := 0 to |ids|
      invariant forall id :: id in done <==> id in ids[..i]
      invariant IpIndexMatches(nodes, done, index)
    {
      var id := ids[i];
      if HasIp(nodes[id]) {
        ExtendIp(nodes, done, index, id);
        index := Push(index, nodes[id].hostIp.value, id);
      } else {
        SkipIp(nodes, done, index, id);
      }
      done := done + {id};
    }
    assert ids[..|ids|] == ids;
    assert done == nodes.Keys;
  }

  method IndexDependencies(edges: seq<Edge>) returns (deps: Index<EntityId>, dependents: Index<EntityId>)
    ensures DepsMatch(edges, deps) && DepsMatch(Reverse(edges), dependents)
  {
    deps, dependents := map[], map[];
    for i := 0 to |edges|
      invariant DepsMatch(edges[..i], deps) && DepsMatch(Reverse(edges)[..i], dependents)
    {
      var e := edges[i];
      ExtendDeps(edges, i, deps);
      ExtendDeps(Reverse(edges), i, dependents);
      if e.edgeType in DEPENDENCY_TYPES {
        deps := Push(deps, e.fromEntity, e.toEntity);
        dependents := Push(dependents, e.toEntity, e.fromEntity);
      }
    }
    assert edges[..|edges|] == edges && Reverse(edges)[..|edges|] == Reverse(edges);
  }

  lemma {:induction false} ExtendIp(nodes: Nodes, ids: set<EntityId>, index: Index<string>, id: EntityId)
    requires IpIndexMatches(nodes, ids, index) && id in nodes && id !in ids && HasIp(nodes[id])
    ensures IpIndexMatches(nodes, ids + {id}, Push(index, nodes[id].hostIp.value, id))
  {
    var r := Push(index, nodes[id].hostIp.value, id);
    forall ip
      ensures Enumerates(Get(r, ip), HostedAt(nodes, ids + {id}, ip))
    {
      assert Enumerates(Get(index, ip), HostedAt(nodes, ids, ip));
      if ip == nodes[id].hostIp.value {
        assert HostedAt(nodes, ids + {id}, ip) == HostedAt(nodes, ids, ip) + {id};
        EnumeratesMore(Get(index, ip), HostedAt(nodes, ids, ip), id);
      } else {
        assert HostedAt(nodes, ids + {id}, ip) == HostedAt(nodes, ids, ip);
      }
    }
  }

  lemma {:induction false} SkipIp(nodes: Nodes, ids: set<EntityId>, index: Index<string>, id: EntityId)
    requires IpIndexMatches(nodes, ids, index) && id in nodes && !HasIp(nodes[id])
    ensures IpIndexMatches(nodes, ids + {id}, index)
  {
    forall ip
      ensures Enumerates(Get(index, ip), HostedAt(nodes, ids + {id}, ip))
    {
      assert Enumerates(Get(index, ip), HostedAt(nodes, ids, ip));
      assert HostedAt(nodes, ids + {id}, ip) == HostedAt(nodes, ids, ip);
    }
  }

  /** One more edge changes the index row of its source, and only when its type is a dependency type. */
  lemma {:induction false} ExtendDeps(edges: seq<Edge>, i: nat, index: Index<EntityId>)
    requires i < |edges| && DepsMatch(edges[..i], index)
    ensures DepsMatch(edges[..i + 1],
                      if edges[i].edgeType in DEPENDENCY_TYPES
                      then Push(index, edges[i].fromEntity, edges[i].toEntity) else index)
  {
    var e := edges[i];
    assert edges[..i + 1][..i] == edges[..i];
    var r := if e.edgeType in DEPENDENCY_TYPES then Push(index, e.fromEntity, e.toEntity) else index;
    forall id
      ensures Get(r, id) == DependsOn(edges[..i + 1], id)
    {
      assert Get(index, id) == DependsOn(edges[..i], id);
    }
  }

  // ----- What discovery may do to operator edits -----

  ghost predicate AllAutomatic(c: Cycle) {
    && (forall n :: n in c.nodes ==> !n.manuallyEdited)
    && (forall e :: e in c.edges ==> !e.manuallyEdited)
  }

  lemma {:induction false} MergeKeepsManualNode(start: Merge, nodes: seq<Node>, clock: nat -> int, id: EntityId)
    requires forall n :: n in nodes ==> !n.manuallyEdited
    requires id in start.table && start.table[id].manuallyEdited
    ensures
      var table := MergeNodes(start, nodes, clock).table;
      id in table && table[id] == start.table[id].(lastSeen := table[id].lastSeen)
  {
    if nodes != [] {
      assert nodes[|nodes| - 1] in nodes;
      MergeKeepsManualNode(start, nodes[..|nodes| - 1], clock, id);
    }
  }

  lemma {:induction false} MergeKeepsManualEdge(table: EdgeTable, edges: seq<Edge>, clock: nat -> int, first: nat, k: EdgeKey)
    requires forall e :: e in edges ==> !e.manuallyEdited
    requires k in table && table[k].manuallyEdited
    ensures
      var r := MergeEdges(table, edges, clock, first);
      k in r && r[k] == table[k].(lastSeen := r[k].lastSeen)
  {
    if edges != [] {
      assert edges[|edges| - 1] in edges;
      MergeKeepsManualEdge(table, edges[..|edges| - 1], clock, first, k);
    }
  }

  function AfterCycles(t: Tables, cycles: seq<Cycle>, interval: int): Tables {
    if cycles == [] then t
    else AfterCycle(AfterCycles(t, cycles[..|cycles| - 1], interval), cycles[|cycles| - 1], interval)
  }

  /** However many cycles run, an operator's node stays, and all of it but `lastSeen` stays as it was. */
  lemma {:induction false} ManualNodeSurvives(t: Tables, cycles: seq<Cycle>, interval: int, id: EntityId)
    requires forall c :: c in cycles ==> AllAutomatic(c)
    requires id in t.nodes && t.nodes[id].manuallyEdited
    ensures
      var r := AfterCycles(t, cycles, interval).nodes;
      id in r && r[id] == t.nodes[id].(lastSeen := r[id].lastSeen)
  {
    if cycles != [] {
      var c := cycles[|cycles| - 1];
      assert c in cycles;
      ManualNodeSurvives(t, cycles[..|cycles| - 1], interval, id);
      var before := AfterCycles(t, cycles[..|cycles| - 1], interval);
      MergeKeepsManualNode(Merge(before.nodes, before.nodes, []), c.nodes, c.clock, id);
    }
  }

  predicate TooOld(n: Node, now: int, age: int) {
    n.lastSeen == None || n.lastSeen.value < now - age
  }

  /** After a cycle's merge the node is an automatic container or stack that is too old or was never seen. */
  predicate GoesStale(t: Tables, c: Cycle, interval: int, id: EntityId) {
    var nodes := MergeTables(t, c).nodes;
    && id in nodes
    && !nodes[id].manuallyEdited
    && ((nodes[id].entityType == "container" && TooOld(nodes[id], c.containersAt, interval * 2))
        || (nodes[id].entityType == "stack" && TooOld(nodes[id], c.stacksAt, interval * 2)))
  }

  /** Of the merged edges a cycle deletes exactly those with an endpoint that goes stale. */
  lemma {:induction false} EdgeFate(t: Tables, c: Cycle, interval: int, k: EdgeKey)
    ensures k in AfterCycle(t, c, interval).edges <==>
      k in MergeTables(t, c).edges && !GoesStale(t, c, interval, k.fromEntity) && !GoesStale(t, c, interval, k.toEntity)
    ensures k in AfterCycle(t, c, interval).edges ==> AfterCycle(t, c, interval).edges[k] == MergeTables(t, c).edges[k]
  {
  }

  /** An operator's edge is not as safe as a node: it goes exactly when an endpoint of it goes stale. */
  lemma {:induction false} ManualEdgeFate(t: Tables, c: Cycle, interval: int, k: EdgeKey)
    requires AllAutomatic(c) && k in t.edges && t.edges[k].manuallyEdited
    ensures
      var r := AfterCycle(t, c, interval).edges;
      && (k in r <==> !GoesStale(t, c, interval, k.fromEntity) && !GoesStale(t, c, interval, k.toEntity))
      && (k in r ==> r[k] == t.edges[k].(lastSeen := r[k].lastSeen))
  {
    EdgeFate(t, c, interval, k);
    MergeKeepsManualEdge(t.edges, c.edges, c.clock, |c.nodes|, k);
  }

  /** An operator's edge from a service of his own to a container that was never seen is gone after a cycle that reports nothing. */
  lemma {:induction false} ManualEdgeLost(service: Node, container: Node, e: Edge, clock: nat -> int, at: int, interval: int)
    requires service.entityId != container.entityId && service.manuallyEdited && e.manuallyEdited
    requires e.fromEntity == service.entityId && e.toEntity == container.entityId
    requires !container.manuallyEdited && container.entityType == "container" && container.lastSeen == None
    ensures
      var t := Tables(map[service.entityId := service, container.entityId := container], map[KeyOf(e) := e]);
      var r := AfterCycle(t, Cycle([], [], clock, at, at), interval);
      service.entityId in r.nodes && r.edges == map[]
  {
    var t := Tables(map[service.entityId := service, container.entityId := container], map[KeyOf(e) := e]);
    var c := Cycle([], [], clock, at, at);
    assert MergeTables(t, c) == t;
    assert GoesStale(t, c, interval, container.entityId);
    ManualEdgeFate(t, c, interval, KeyOf(e));
    ManualNodeSurvives(t, [c], interval, service.entityId);
    assert [c][..0] == [];
    assert AfterCycles(t, [c], interval) == AfterCycle(t, c, interval);
    assert forall k :: k in AfterCycle(t, c, interval).edges ==> k in t.edges;
  }

  /** A merge reports a node as added exactly once if it was new to memory, and never otherwise. */
  lemma {:induction false} AddedOnce(start: Merge, nodes: seq<Node>, clock: nat -> int, id: EntityId)
    requires start.diffs == []
    ensures
      var m := MergeNodes(start, nodes, clock);
      && (id in start.memory ==> id in m.memory)
      && multiset(m.diffs)[Diff(Added, OfNode(id))] == (if id in m.memory && id !in start.memory then 1 else 0)
  {
    if nodes != [] {
      var n := |nodes| - 1;
      AddedOnce(start, nodes[..n], clock, id);
      var more := NodeDiff(Find(MergeNodes(start, nodes[..n], clock).memory, nodes[n].entityId), nodes[n]);
      assert multiset(more)[Diff(Added, OfNode(id))]
          == (if nodes[n].entityId == id && id !in MergeNodes(start, nodes[..n], clock).memory then 1 else 0);
    }
  }

  // ----- Whose word stands -----

  /**
   Three upserts: an operator's report, and any report of a row that no operator has edited, replaces
   the row; an automatic report of a row that an operator edited leaves all of it but `lastSeen`.
  */
  lemma {:induction false} UpsertedNode(nodes: Nodes, node: Node, now: int)
    ensures
      var id, r := node.entityId, UpsertNodeTo(nodes, node, now);
      && r.Keys == nodes.Keys + {id} && (forall other :: other in nodes && other != id ==> r[other] == nodes[other])
      && (node.manuallyEdited || id !in nodes || !nodes[id].manuallyEdited ==> r[id] == node.(lastSeen := Some(now)))
      && (!node.manuallyEdited && id in nodes && nodes[id].manuallyEdited ==> r[id] == nodes[id].(lastSeen := Some(now)))
  {
  }

  lemma {:induction false} UpsertedEdge(edges: EdgeTable, edge: Edge, now: int)
    ensures
      var k, r := EdgeKey(edge.fromEntity, edge.toEntity, edge.edgeType), UpsertEdgeTo(edges, edge, now);
      && r.Keys == edges.Keys + {k} && (forall other :: other in edges && other != k ==> r[other] == edges[other])
      && (edge.manuallyEdited || k !in edges || !edges[k].manuallyEdited ==> r[k] == edge.(lastSeen := Some(now)))
      && (!edge.manuallyEdited && k in edges && edges[k].manuallyEdited ==> r[k] == edges[k].(lastSeen := Some(now)))
  {
  }

  /** An operator's edit, of any row or none, keeps its fields over any number of automatic cycles. */
  lemma {:induction false} OperatorEditSurvives(t: Tables, node: Node, now: int, cycles: seq<Cycle>, interval: int)
    requires node.manuallyEdited && forall c :: c in cycles ==> AllAutomatic(c)
    ensures
      var r := AfterCycles(t.(nodes := UpsertNodeTo(t.nodes, node, now)), cycles, interval).nodes;
      node.entityId in r && r[node.entityId] == node.(lastSeen := r[node.entityId].lastSeen)
  {
    UpsertedNode(t.nodes, node, now);
    ManualNodeSurvives(t.(nodes := UpsertNodeTo(t.nodes, node, now)), cycles, interval, node.entityId);
  }

  /** The k-th report is the last of its id. */
  ghost predicate IsLastReport(nodes: seq<Node>, k: nat) {
    k < |nodes| && forall j :: k < j < |nodes| ==> nodes[j].entityId != nodes[k].entityId
  }

  /** The k-th report is by an operator, and all later ones of its id are automatic. */
  ghost predicate IsLastEdit(nodes: seq<Node>, k: nat) {
    && k < |nodes| && nodes[k].manuallyEdited
    && forall j :: k < j < |nodes| && nodes[j].entityId == nodes[k].entityId ==> !nodes[j].manuallyEdited
  }

  /** Of any mixture of reports of an id the last one by an operator stands, in all but `lastSeen`, whatever was there. */
  lemma {:induction false} LastEditStands(start: Merge, nodes: seq<Node>, clock: nat -> int, k: nat)
    requires IsLastEdit(nodes, k)
    ensures
      var id, table := nodes[k].entityId, MergeNodes(start, nodes, clock).table;
      id in table && table[id] == nodes[k].(lastSeen := table[id].lastSeen)
  {
    var n := |nodes| - 1;
    if k < n {
      LastEditStands(start, nodes[..n], clock, k);
    }
  }

  /** And any last report stamps the row with its time. */
  lemma {:induction false} LastReportStamps(start: Merge, nodes: seq<Node>, clock: nat -> int, k: nat)
    requires IsLastReport(nodes, k)
    ensures
      var id, table := nodes[k].entityId, MergeNodes(start, nodes, clock).table;
      id in table && table[id].lastSeen == Some(clock(k))
  {
    var n := |nodes| - 1;
    if k < n {
      LastReportStamps(start, nodes[..n], clock, k);
    }
  }

  /** The same of edges, under both ends and the type. */
  ghost predicate IsLastEdgeReport(edges: seq<Edge>, k: nat) {
    k < |edges| && forall j :: k < j < |edges| ==> KeyOf(edges[j]) != KeyOf(edges[k])
  }

  ghost predicate IsLastEdgeEdit(edges: seq<Edge>, k: nat) {
    && k < |edges| && edges[k].manuallyEdited
    && forall j :: k < j < |edges| && KeyOf(edges[j]) == KeyOf(edges[k]) ==> !edges[j].manuallyEdited
  }

  lemma {:induction false} LastEdgeEditStands(table: EdgeTable, edges: seq<Edge>, clock: nat -> int, first: nat, k: nat)
    requires IsLastEdgeEdit(edges, k)
    ensures
      var key, r := EdgeKey(edges[k].fromEntity, edges[k].toEntity, edges[k].edgeType), MergeEdges(table, edges, clock, first);
      key in r && r[key] == edges[k].(lastSeen := r[key].lastSeen)
  {
    var n := |edges| - 1;
    if k < n {
      LastEdgeEditStands(table, edges[..n], clock, first, k);
    }
  }

  /** The last report of an edge stamps it, and wins if no operator has edited it. */
  lemma {:induction false} LastEdgeReportWins(table: EdgeTable, edges: seq<Edge>, clock: nat -> int, first: nat, k: nat)
    requires IsLastEdgeReport(edges, k)
    ensures
      var key, r := EdgeKey(edges[k].fromEntity, edges[k].toEntity, edges[k].edgeType), MergeEdges(table, edges, clock, first);
      && key in r && r[key].lastSeen == Some(clock(first + k))
      && ((key in table ==> !table[key].manuallyEdited) && (forall e :: e in edges && KeyOf(e) == key ==> !e.manuallyEdited) ==>
            r[key] == edges[k].(lastSeen := Some(clock(first + k))))
  {
    var n := |edges| - 1;
    assert forall e :: e in edges[..n] ==> e in edges;
    if k < n {
      LastEdgeReportWins(table, edges[..n], clock, first, k);
    } else if (KeyOf(edges[k]) in table ==> !table[KeyOf(edges[k])].manuallyEdited) && (forall e :: e in edges && KeyOf(e) == KeyOf(edges[k]) ==> !e.manuallyEdited) {
      EdgeStaysAutomatic(table, edges[..n], clock, first, KeyOf(edges[k]));
    }
  }

  lemma {:induction false} EdgeStaysAutomatic(table: EdgeTable, edges: seq<Edge>, clock: nat -> int, first: nat, key: EdgeKey)
    requires key in table ==> !table[key].manuallyEdited
    requires forall e :: e in edges && KeyOf(e) == key ==> !e.manuallyEdited
    ensures var r := MergeEdges(table, edges, clock, first); key in r ==> !r[key].manuallyEdited
  {
    if edges != [] {
      assert edges[|edges| - 1] in edges;
      assert forall e :: e in edges[..|edges| - 1] ==> e in edges;
      EdgeStaysAutomatic(table, edges[..|edges| - 1], clock, first, key);
    }
  }

  // ----- What a merge reports -----

  /** The report changes what memory shows of its node, or touches one that an operator edited. */
  ghost predicate Touches(existing: Node, node: Node) {
    || (existing.manuallyEdited && !node.manuallyEdited)
    || existing.hostIp != node.hostIp || existing.displayName != node.displayName || existing.entityType != node.entityType
  }

  /** A merge reports a node as updated if and only if one of its reports touches what memory held just before it. */
  lemma {:induction false} UpdatedIff(start: Merge, nodes: seq<Node>, clock: nat -> int, id: EntityId)
    requires start.diffs == []
    ensures (Diff(Updated, OfNode(id)) in MergeNodes(start, nodes, clock).diffs)
       <==> (exists k :: 0 <= k < |nodes| && nodes[k].entityId == id && TouchesAt(start, nodes, clock, k))
  {
    if nodes != [] {
      var n := |nodes| - 1;
      UpdatedIff(start, nodes[..n], clock, id);
      forall k | 0 <= k < n
        ensures TouchesAt(start, nodes[..n], clock, k) <==> TouchesAt(start, nodes, clock, k)
      {
        assert nodes[..n][..k] == nodes[..k];
      }
      UpdatedNow(start, nodes, clock, id);
    }
  }

  lemma {:induction false} UpdatedNow(start: Merge, nodes: seq<Node>, clock: nat -> int, id: EntityId)
    requires nodes != []
    ensures
      var n := |nodes| - 1;
      Diff(Updated, OfNode(id)) in MergeNodes(start, nodes, clock).diffs <==>
        (Diff(Updated, OfNode(id)) in MergeNodes(start, nodes[..n], clock).diffs || (nodes[n].entityId == id && TouchesAt(start, nodes, clock, n)))
  {
  }

  ghost predicate TouchesAt(start: Merge, nodes: seq<Node>, clock: nat -> int, k: nat)
    requires k < |nodes|
  {
    var memory := MergeNodes(start, nodes[..k], clock).memory;
    nodes[k].entityId in memory && Touches(memory[nodes[k].entityId], nodes[k])
  }

  /** The diffs report the edges at these positions as added. */
  ghost predicate AddsAt(diffs: seq<Diff>, edges: seq<Edge>, at: seq<nat>) {
    |diffs| == |at| && forall i :: 0 <= i < |at| ==> at[i] < |edges| && diffs[i] == Diff(Added, OfEdge(edges[at[i]].fromEntity, edges[at[i]].toEntity))
  }

  lemma {:induction false} AddsMore(diffs: seq<Diff>, edges: seq<Edge>, n: nat, at: seq<nat>)
    requires n < |edges| && AddsAt(diffs, edges[..n], at)
    ensures AddsAt(diffs, edges, at) && AddsAt(diffs + [Diff(Added, OfEdge(edges[n].fromEntity, edges[n].toEntity))], edges, at + [n])
  {
  }

  /** A merge of edges reports as added, in order and each time, those whose ends and type no edge known before has. */
  lemma {:induction false} EdgeAddedIff(known: seq<Edge>, edges: seq<Edge>) returns (at: seq<nat>)
    ensures Selects(at, |edges|, NewAt(known, edges)) && AddsAt(EdgeDiffs(known, edges), edges, at)
  {
    if edges == [] {
      at := [];
    } else {
      var n := |edges| - 1;
      var before := EdgeAddedIff(known, edges[..n]);
      var diffs := EdgeDiffs(known, edges[..n]);
      SelectsMore(before, n, NewAt(known, edges[..n]), NewAt(known, edges));
      AddsMore(diffs, edges, n, before);
      if IsNew(known, edges[n]) {
        at := before + [n];
      } else {
        at := before;
        assert diffs + [] == diffs;
      }
    }
  }

  ghost predicate IsNew(known: seq<Edge>, e: Edge) {
    forall f :: f in known ==> f.fromEntity != e.fromEntity || f.toEntity != e.toEntity || f.edgeType != e.edgeType
  }

  ghost function NewAt(known: seq<Edge>, edges: seq<Edge>): set<int> {
    set i | 0 <= i < |edges| && IsNew(known, edges[i])
  }

  // ----- What the dependency indexes hold -----

  ghost function DependencyAt(edges: seq<Edge>, id: EntityId): set<int> {
    set i | 0 <= i < |edges| && edges[i].edgeType in DEPENDENCY_TYPES && edges[i].fromEntity == id
  }

  /** The list holds the targets of the edges at these positions. */
  ghost predicate TargetsAt(list: seq<EntityId>, edges: seq<Edge>, at: seq<nat>) {
    |list| == |at| && forall i :: 0 <= i < |at| ==> at[i] < |edges| && list[i] == edges[at[i]].toEntity
  }

  lemma {:induction false} TargetsMore(list: seq<EntityId>, edges: seq<Edge>, n: nat, at: seq<nat>)
    requires n < |edges| && TargetsAt(list, edges[..n], at)
    ensures TargetsAt(list, edges, at) && TargetsAt(list + [edges[n].toEntity], edges, at + [n])
  {
  }

  /** An entity's dependencies are the targets of its dependency edges, in their order and as often as they come. */
  lemma {:induction false} DependenciesAreTargets(edges: seq<Edge>, id: EntityId) returns (at: seq<nat>)
    ensures Selects(at, |edges|, DependencyAt(edges, id)) && TargetsAt(DependsOn(edges, id), edges, at)
  {
    if edges == [] {
      at := [];
    } else {
      var n := |edges| - 1;
      var before := DependenciesAreTargets(edges[..n], id);
      var list := DependsOn(edges[..n], id);
      SelectsMore(before, n, DependencyAt(edges[..n], id), DependencyAt(edges, id));
      TargetsMore(list, edges, n, before);
      if n in DependencyAt(edges, id) {
        at := before + [n];
      } else {
        at := before;
        assert list + [] == list;
      }
    }
  }

  /** Its dependents are the sources of the dependency edges that lead to it. */
  lemma {:induction false} DependentsAreSources(edges: seq<Edge>, id: EntityId) returns (at: seq<nat>)
    ensures Selects(at, |edges|, set i | 0 <= i < |edges| && edges[i].edgeType in DEPENDENCY_TYPES && edges[i].toEntity == id)
    ensures |DependsOn(Reverse(edges), id)| == |at|
    ensures forall i :: 0 <= i < |at| ==> DependsOn(Reverse(edges), id)[i] == edges[at[i]].fromEntity
  {
    at := DependenciesAreTargets(Reverse(edges), id);
    assert DependencyAt(Reverse(edges), id) == set i | 0 <= i < |edges| && edges[i].edgeType in DEPENDENCY_TYPES && edges[i].toEntity == id;
  }

  // ----- What discovery does to automatic nodes -----

  /** The last report of an id wins, with the time it was merged. */
  lemma {:induction false} LastReportWins(start: Merge, nodes: seq<Node>, clock: nat -> int, k: nat)
    requires k < |nodes| && forall n :: n in nodes ==> !n.manuallyEdited
    requires forall j :: k < j < |nodes| ==> nodes[j].entityId != nodes[k].entityId
    requires nodes[k].entityId in start.table ==> !start.table[nodes[k].entityId].manuallyEdited
    ensures
      var id, table := nodes[k].entityId, MergeNodes(start, nodes, clock).table;
      id in table && table[id] == nodes[k].(lastSeen := Some(clock(k)))
  {
    var n := |nodes| - 1;
    if k < n {
      LastReportWins(start, nodes[..n], clock, k);
    } else {
      MergeKeepsAutomatic(start, nodes[..n], clock, nodes[k].entityId);
    }
  }

  lemma {:induction false} MergeKeepsAutomatic(start: Merge, nodes: seq<Node>, clock: nat -> int, id: EntityId)
    requires forall n :: n in nodes ==> !n.manuallyEdited
    requires id in start.table ==> !start.table[id].manuallyEdited
    ensures var table := MergeNodes(start, nodes, clock).table; id in table ==> !table[id].manuallyEdited
  {
    if nodes != [] {
      assert nodes[|nodes| - 1] in nodes;
      MergeKeepsAutomatic(start, nodes[..|nodes| - 1], clock, id);
    }
  }

  /** A reported id is in the table with a time no older than the oldest reading of the merge. */
  lemma {:induction false} MergeStamps(start: Merge, nodes: seq<Node>, clock: nat -> int, id: EntityId, oldest: int)
    requires exists k :: 0 <= k < |nodes| && nodes[k].entityId == id
    requires forall k :: 0 <= k < |nodes| ==> clock(k) >= oldest
    ensures
      var table := MergeNodes(start, nodes, clock).table;
      id in table && table[id].lastSeen.Some? && table[id].lastSeen.value >= oldest
  {
    var n := |nodes| - 1;
    if nodes[n].entityId != id {
      var k :| 0 <= k < |nodes| && nodes[k].entityId == id;
      assert nodes[..n][k] == nodes[k];
      MergeStamps(start, nodes[..n], clock, id, oldest);
    }
  }

  /** Of the merged nodes a cycle deletes exactly those that go stale. */
  lemma {:induction false} NodeFate(t: Tables, c: Cycle, interval: int, id: EntityId)
    ensures id in AfterCycle(t, c, interval).nodes <==> id in MergeTables(t, c).nodes && !GoesStale(t, c, interval, id)
    ensures id in AfterCycle(t, c, interval).nodes ==> AfterCycle(t, c, interval).nodes[id] == MergeTables(t, c).nodes[id]
  {
  }

  /** What discovery reports in a cycle that takes no longer than two intervals is there after it. */
  lemma {:induction false} ReportedNodeSurvives(t: Tables, c: Cycle, interval: int, id: EntityId, started: int)
    requires exists k :: 0 <= k < |c.nodes| && c.nodes[k].entityId == id
    requires forall k :: 0 <= k < |c.nodes| ==> c.clock(k) >= started
    requires c.containersAt - started <= interval * 2 && c.stacksAt - started <= interval * 2
    ensures id in AfterCycle(t, c, interval).nodes
  {
    MergeStamps(Merge(t.nodes, t.nodes, []), c.nodes, c.clock, id, started);
    NodeFate(t, c, interval, id);
  }
}
