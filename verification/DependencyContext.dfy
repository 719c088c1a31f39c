/**
 `gather_dependency_context`: both searches, the neighbours on the same host and the edges
 among all of them, as one method over the in-memory graph.
*/
module DependencyContext {
  import opened Wrappers
  import opened Collections
  import opened Topology
  import opened DependencyBfs
  import opened ServiceGraph

  datatype DependencyEdgeInfo = DependencyEdgeInfo(
    fromEntity: EntityId, toEntity: EntityId, edgeType: string, manuallyEdited: bool)

  datatype DependencyContext = DependencyContext(
    entityId: EntityId,
    entityType: Option<string>,
    hostIp: Option<string>,
    upstream: seq<DependencyNode>,
    downstream: seq<DependencyNode>,
    sameHost: seq<DependencyNode>,
    edges: seq<DependencyEdgeInfo>)

  function Clamp(depth: int): nat {
    var atMost := if depth < 5 then depth else 5;
    if atMost > 1 then atMost else 1
  }

  function InfoOf(e: Edge): DependencyEdgeInfo {
    DependencyEdgeInfo(e.fromEntity, e.toEntity, e.edgeType, e.manuallyEdited)
  }

  // ----- What the context is, in terms of the graph alone -----

  /** Existing nodes other than the root at the root's address, if it has one. */
  ghost function Neighbours(nodes: Nodes, root: EntityId): set<EntityId>
    requires root in nodes
  {
    set id | id in nodes && id != root && nodes[id].hostIp == nodes[root].hostIp != None && nodes[root].hostIp != Some("")
  }

  /** Within `bound` hops of the root either way, or on its host. */
  ghost predicate Related(nodes: Nodes, edges: seq<Edge>, root: EntityId, bound: nat, id: EntityId)
    requires root in nodes
  {
    || id == root
    || ReachesWithin(nodes, edges, root, id, bound)
    || ReachesWithin(nodes, edges, id, root, bound)
    || id in Neighbours(nodes, root)
  }

  ghost function RelatedIds(nodes: Nodes, edges: seq<Edge>, root: EntityId, bound: nat): set<EntityId>
    requires root in nodes
  {
    set id | id in nodes && Related(nodes, edges, root, bound, id)
  }

  /** The whole context of an existing root. */
  ghost predicate IsContext(nodes: Nodes, edges: seq<Edge>, root: EntityId, bound: nat, ctx: DependencyContext)
    requires root in nodes
  {
    && ctx.entityId == root
    && ctx.entityType == Some(nodes[root].entityType)
    && ctx.hostIp == nodes[root].hostIp
    && IsNeighbourhood(nodes, edges, root, bound, ctx.upstream)
    && IsNeighbourhood(nodes, Reverse(edges), root, bound, ctx.downstream)
    && DescribesEach(nodes, ctx.sameHost, Neighbours(nodes, root))
    && ctx.edges == Induced(edges, RelatedIds(nodes, edges, root, bound))
  }

  /** The ids of `list`, each once, are `ids`, and each entry shows its node. */
  ghost predicate DescribesEach(nodes: Nodes, list: seq<DependencyNode>, ids: set<EntityId>) {
    && (forall i :: 0 <= i < |list| ==>
          list[i].entityId in nodes && Shows(list[i], nodes[list[i].entityId]) && list[i].edgeType == "same_host" && list[i].depth == 0)
    && (forall id :: Listed(list, id) <==> id in ids)
    && (forall i, j :: 0 <= i < j < |list| ==> list[i].entityId != list[j].entityId)
  }

  /** The edges, in order, with both ends in `ids`. */
  function Induced(edges: seq<Edge>, ids: set<EntityId>): seq<DependencyEdgeInfo> {
    if edges == [] then []
    else
      var e := edges[|edges| - 1];
      Induced(edges[..|edges| - 1], ids) +
      if e.fromEntity in ids && e.toEntity in ids then [InfoOf(e)] else []
  }

  /** `info` reports the edge, its source first. */
  ghost predicate Reports(info: DependencyEdgeInfo, e: Edge) {
    info.fromEntity == e.fromEntity && info.toEntity == e.toEntity && info.edgeType == e.edgeType && info.manuallyEdited == e.manuallyEdited
  }

  predicate Inside(e: Edge, ids: set<EntityId>) {
    e.fromEntity in ids && e.toEntity in ids
  }

  /** The list reports the edges at these positions. */
  ghost predicate ReportsAt(infos: seq<DependencyEdgeInfo>, edges: seq<Edge>, at: seq<nat>) {
    |infos| == |at| && forall k :: 0 <= k < |at| ==> at[k] < |edges| && Reports(infos[k], edges[at[k]])
  }

  lemma {:induction false} ReportsMore(infos: seq<DependencyEdgeInfo>, edges: seq<Edge>, n: nat, at: seq<nat>)
    requires n < |edges| && ReportsAt(infos, edges[..n], at)
    ensures ReportsAt(infos, edges, at) && ReportsAt(infos + [InfoOf(edges[n])], edges, at + [n])
  {
  }

  function InsideAt(edges: seq<Edge>, ids: set<EntityId>): set<int> {
    set i | 0 <= i < |edges| && Inside(edges[i], ids)
  }

  /** The list reports, in the order of the edges and once for each, exactly those with both ends in `ids`. */
  lemma {:induction false} InducedIsExact(edges: seq<Edge>, ids: set<EntityId>) returns (at: seq<nat>)
    ensures Selects(at, |edges|, set i | 0 <= i < |edges| && Inside(edges[i], ids))
    ensures ReportsAt(Induced(edges, ids), edges, at)
  {
    if edges == [] {
      at := [];
    } else {
      var n := |edges| - 1;
      var before := InducedIsExact(edges[..n], ids);
      var infos := Induced(edges[..n], ids);
      ReportsMore(infos, edges, n, before);
      SelectsMore(before, n, InsideAt(edges[..n], ids), InsideAt(edges, ids));
      if Inside(edges[n], ids) {
        at := before + [n];
      } else {
        at := before;
        assert infos + [] == infos;
      }
    }
  }

  // ----- Walking backwards -----

  function Backwards<T>(w: seq<T>): seq<T> {
    seq(|w|, i requires 0 <= i < |w| => w[|w| - 1 - i])
  }

  lemma {:induction false} LinkedBackwards(edges: seq<Edge>, a: EntityId, b: EntityId)
    requires Linked(edges, a, b)
    ensures Linked(Reverse(edges), b, a)
  {
    var e :| e in edges && e.fromEntity == a && e.toEntity == b;
    var i :| 0 <= i < |edges| && edges[i] == e;
    assert Reverse(edges)[i] == ReverseEdge(e);
  }

  lemma {:induction false} ReachesBackwards(nodes: Nodes, edges: seq<Edge>, a: EntityId, b: EntityId, hops: nat)
    requires Reaches(nodes, edges, a, b, hops)
    ensures Reaches(nodes, Reverse(edges), b, a, hops)
  {
    var w :| Connects(nodes, edges, w, a, b) && |w| == hops + 1;
    var v := Backwards(w);
    forall i | 0 <= i < |v| - 1
      ensures Linked(Reverse(edges), v[i], v[i + 1])
    {
      var k := |w| - 2 - i;
      assert Linked(edges, w[k], w[k + 1]);
      LinkedBackwards(edges, w[k], w[k + 1]);
    }
    assert Connects(nodes, Reverse(edges), v, b, a);
  }

  lemma {:induction false} ReverseTwice(edges: seq<Edge>)
    ensures Reverse(Reverse(edges)) == edges
  {
  }

  /** Walks over the reversed edges are walks the other way, of the same length. */
  lemma {:induction false} ReverseReaches(nodes: Nodes, edges: seq<Edge>, a: EntityId, b: EntityId, hops: nat)
    ensures Reaches(nodes, Reverse(edges), a, b, hops) <==> Reaches(nodes, edges, b, a, hops)
  {
    if Reaches(nodes, Reverse(edges), a, b, hops) {
      ReachesBackwards(nodes, Reverse(edges), a, b, hops);
      ReverseTwice(edges);
    }
    if Reaches(nodes, edges, b, a, hops) {
      ReachesBackwards(nodes, edges, b, a, hops);
    }
  }

  lemma {:induction false} ReverseReachesWithin(nodes: Nodes, edges: seq<Edge>, a: EntityId, b: EntityId, bound: nat)
    ensures ReachesWithin(nodes, Reverse(edges), a, b, bound) <==> ReachesWithin(nodes, edges, b, a, bound)
  {
    if ReachesWithin(nodes, Reverse(edges), a, b, bound) {
      var hops: nat :| hops <= bound && Reaches(nodes, Reverse(edges), a, b, hops);
      ReverseReaches(nodes, edges, a, b, hops);
    }
    if ReachesWithin(nodes, edges, b, a, bound) {
      var hops: nat :| hops <= bound && Reaches(nodes, edges, b, a, hops);
      ReverseReaches(nodes, edges, a, b, hops);
    }
  }

  // ----- The code -----

  /** The inner loop upstream: follow each edge from its source to its target. */
  method ExpandUpstream(nodes: Nodes, edges: seq<Edge>, current: Hop, s: Search) returns (r: Search)
    ensures r == VisitAll(nodes, edges, current.id, current.depth, s)
  {
    var frontier, visited, upstream := s.frontier, s.visited, s.found;
    for i := 0 to |edges|
      invariant Search(frontier, visited, upstream) == VisitAll(nodes, edges[..i], current.id, current.depth, s)
    {
      var edge := edges[i];
      assert edges[..i + 1][..i] == edges[..i];
      if edge.fromEntity == current.id && edge.toEntity !in visited {
        if edge.toEntity in nodes {
          var target := nodes[edge.toEntity];
          visited := visited + {edge.toEntity};
          upstream := upstream + [DependencyNode(
            target.entityId, target.entityType, target.displayName, target.hostIp, edge.edgeType, current.depth + 1)];
          frontier := frontier + [Hop(edge.toEntity, current.depth + 1)];
        }
      }
    }
    assert edges[..|edges|] == edges;
    r := Search(frontier, visited, upstream);
  }

  /** The upstream search. */
  method SearchUpstream(graph: ServiceGraph, root: EntityId, depth: nat) returns (upstream: seq<DependencyNode>)
    ensures upstream == Bfs(graph.nodes, graph.edges, root, depth)
  {
    var nodes, edges := graph.nodes, graph.edges;
    var s := Search([Hop(root, 0)], {root}, []);
    while s.frontier != []
      invariant Explore(nodes, edges, depth, s).found == Bfs(nodes, edges, root, depth)
      decreases Work(nodes, s)
    {
      var current := s.frontier[0];
      s := s.(frontier := s.frontier[1..]);
      if current.depth >= depth {
        continue;
      }
      VisitAllWork(nodes, edges, current.id, current.depth, s);
      s := ExpandUpstream(nodes, edges, current, s);
    }
    upstream := s.found;
  }

  /** The inner loop downstream: follow each edge from its target to its source. */
  method ExpandDownstream(nodes: Nodes, edges: seq<Edge>, current: Hop, s: Search) returns (r: Search)
    ensures r == VisitAll(nodes, Reverse(edges), current.id, current.depth, s)
  {
    var frontier, visited, downstream := s.frontier, s.visited, s.found;
    for i := 0 to |edges|
      invariant Search(frontier, visited, downstream) == VisitAll(nodes, Reverse(edges)[..i], current.id, current.depth, s)
    {
      var edge := edges[i];
      assert Reverse(edges)[..i + 1][..i] == Reverse(edges)[..i];
      if edge.toEntity == current.id && edge.fromEntity !in visited {
        if edge.fromEntity in nodes {
          var source := nodes[edge.fromEntity];
          visited := visited + {edge.fromEntity};
          downstream := downstream + [DependencyNode(
            source.entityId, source.entityType, source.displayName, source.hostIp, edge.edgeType, current.depth + 1)];
          frontier := frontier + [Hop(edge.fromEntity, current.depth + 1)];
        }
      }
    }
    assert Reverse(edges)[..|edges|] == Reverse(edges);
    r := Search(frontier, visited, downstream);
  }

  /** The downstream search. */
  method SearchDownstream(graph: ServiceGraph, root: EntityId, depth: nat) returns (downstream: seq<DependencyNode>)
    ensures downstream == Bfs(graph.nodes, Reverse(graph.edges), root, depth)
  {
    var nodes, edges := graph.nodes, graph.edges;
    var s := Search([Hop(root, 0)], {root}, []);
    while s.frontier != []
      invariant Explore(nodes, Reverse(edges), depth, s).found == Bfs(nodes, Reverse(edges), root, depth)
      decreases Work(nodes, s)
    {
      var current := s.frontier[0];
      s := s.(frontier := s.frontier[1..]);
      if current.depth >= depth {
        continue;
      }
      VisitAllWork(nodes, Reverse(edges), current.id, current.depth, s);
      s := ExpandDownstream(nodes, edges, current, s);
    }
    downstream := s.found;
  }

  /** Everyone else at the root's address, from the index. */
  method SameHost(graph: ServiceGraph, root: EntityId) returns (list: seq<DependencyNode>)
    requires graph.Valid() && root in graph.nodes
    ensures DescribesEach(graph.nodes, list, Neighbours(graph.nodes, root))
  {
    list := [];
    if !HasIp(graph.nodes[root]) {
      return;
    }
    var ids := graph.ServicesOnHost(graph.nodes[root].hostIp.value);
    ghost var done: set<EntityId> := {};
    for i := 0 to |ids|
      invariant forall id :: id in done <==> id in ids[..i] && id != root
      invariant DescribesEach(graph.nodes, list, done)
    {
      var id := ids[i];
      assert id in ids;
      if id != root {
        SameHostGrows(graph.nodes, list, done, id);
        list := list + [Describe(graph.nodes[id], "same_host", 0)];
        done := done + {id};
      }
    }
    assert ids[..|ids|] == ids;
    assert done == Neighbours(graph.nodes, root);
  }

  lemma {:induction false} SameHostGrows(nodes: Nodes, list: seq<DependencyNode>, ids: set<EntityId>, id: EntityId)
    requires Keyed(nodes) && DescribesEach(nodes, list, ids) && id in nodes && id !in ids
    ensures DescribesEach(nodes, list + [Describe(nodes[id], "same_host", 0)], ids + {id})
  {
    var f := Describe(nodes[id], "same_host", 0);
    forall x
      ensures Listed(list + [f], x) <==> x in ids + {id}
    {
      ListedGrows(list, f, x);
    }
    assert !Listed(list, id);
  }

  method InducedEdges(graph: ServiceGraph, ids: set<EntityId>) returns (edges: seq<DependencyEdgeInfo>)
    ensures edges == Induced(graph.edges, ids)
  {
    edges := [];
    for i := 0 to |graph.edges|
      invariant edges == Induced(graph.edges[..i], ids)
    {
      var edge := graph.edges[i];
      assert graph.edges[..i + 1][..i] == graph.edges[..i];
      if edge.fromEntity in ids && edge.toEntity in ids {
        edges := edges + [DependencyEdgeInfo(edge.fromEntity, edge.toEntity, edge.edgeType, edge.manuallyEdited)];
      }
    }
    assert graph.edges[..|graph.edges|] == graph.edges;
  }

  method GatherDependencyContext(root: EntityId, graph: ServiceGraph, depth: int) returns (ctx: DependencyContext)
    requires graph.Valid()
    ensures root !in graph.nodes ==> ctx == DependencyContext(root, None, None, [], [], [], [])
    ensures root in graph.nodes && 1 <= depth <= 5 ==> IsContext(graph.nodes, graph.edges, root, depth, ctx)
    ensures root in graph.nodes && depth > 5 ==> IsContext(graph.nodes, graph.edges, root, 5, ctx)
    ensures root in graph.nodes && depth < 1 ==> IsContext(graph.nodes, graph.edges, root, 1, ctx)
    ensures root in graph.nodes ==>
      && ctx.upstream == Bfs(graph.nodes, graph.edges, root, Clamp(depth))
      && ctx.downstream == Bfs(graph.nodes, Reverse(graph.edges), root, Clamp(depth))
  {
    if root !in graph.nodes {
      return DependencyContext(root, None, None, [], [], [], []);
    }
    var upstream := SearchUpstream(graph, root, Clamp(depth));
    var downstream := SearchDownstream(graph, root, Clamp(depth));
    var sameHost := SameHost(graph, root);
    SearchIsExact(graph.nodes, graph.edges, root, Clamp(depth));
    SearchIsExact(graph.nodes, Reverse(graph.edges), root, Clamp(depth));
    CollectedAreRelated(graph.nodes, graph.edges, root, Clamp(depth), upstream, downstream, sameHost);
    var edges := InducedEdges(graph, {root} + IdsOf(upstream) + IdsOf(downstream) + IdsOf(sameHost));
    ctx := DependencyContext(root, Some(graph.nodes[root].entityType), graph.nodes[root].hostIp,
      upstream, downstream, sameHost, edges);
  }

  function IdsOf(list: seq<DependencyNode>): set<EntityId> {
    set n | n in list :: n.entityId
  }

  lemma {:induction false} RelatedIffCollected(nodes: Nodes, edges: seq<Edge>, root: EntityId, bound: nat,
                            upstream: seq<DependencyNode>, downstream: seq<DependencyNode>, sameHost: seq<DependencyNode>, id: EntityId)
    requires root in nodes
    requires IsNeighbourhood(nodes, edges, root, bound, upstream)
    requires IsNeighbourhood(nodes, Reverse(edges), root, bound, downstream)
    requires DescribesEach(nodes, sameHost, Neighbours(nodes, root))
    ensures id in {root} + IdsOf(upstream) + IdsOf(downstream) + IdsOf(sameHost) <==> Related(nodes, edges, root, bound, id)
  {
    ReverseReachesWithin(nodes, edges, root, id, bound);
    assert id in IdsOf(upstream) <==> Listed(upstream, id);
    assert id in IdsOf(downstream) <==> Listed(downstream, id);
    assert id in IdsOf(sameHost) <==> Listed(sameHost, id);
  }

  lemma {:induction false} CollectedAreRelated(nodes: Nodes, edges: seq<Edge>, root: EntityId, bound: nat,
                            upstream: seq<DependencyNode>, downstream: seq<DependencyNode>, sameHost: seq<DependencyNode>)
    requires root in nodes
    requires IsNeighbourhood(nodes, edges, root, bound, upstream)
    requires IsNeighbourhood(nodes, Reverse(edges), root, bound, downstream)
    requires DescribesEach(nodes, sameHost, Neighbours(nodes, root))
    ensures {root} + IdsOf(upstream) + IdsOf(downstream) + IdsOf(sameHost) == RelatedIds(nodes, edges, root, bound)
  {
    forall id
      ensures id in {root} + IdsOf(upstream) + IdsOf(downstream) + IdsOf(sameHost) <==> id in RelatedIds(nodes, edges, root, bound)
    {
      RelatedIffCollected(nodes, edges, root, bound, upstream, downstream, sameHost, id);
      if id in IdsOf(upstream) {
        CollectedExist(nodes, edges, root, bound, upstream, id);
      }
      if id in IdsOf(downstream) {
        CollectedExist(nodes, Reverse(edges), root, bound, downstream, id);
      }
    }
  }

  lemma {:induction false} CollectedExist(nodes: Nodes, edges: seq<Edge>, root: EntityId, bound: nat, found: seq<DependencyNode>, id: EntityId)
    requires IsNeighbourhood(nodes, edges, root, bound, found) && id in IdsOf(found)
    ensures id in nodes
  {
    var n :| n in found && n.entityId == id;
    var i :| 0 <= i < |found| && found[i] == n;
    assert IsEntry(nodes, edges, root, found[i]);
  }

  /** Asking for more depth only adds entries at the end, in both directions. */
  lemma {:induction false} MoreDepthExtends(nodes: Nodes, edges: seq<Edge>, root: EntityId, less: int, more: int)
    requires Keyed(nodes) && root in nodes && less <= more
    ensures Bfs(nodes, edges, root, Clamp(less)) <= Bfs(nodes, edges, root, Clamp(more))
    ensures Bfs(nodes, Reverse(edges), root, Clamp(less)) <= Bfs(nodes, Reverse(edges), root, Clamp(more))
  {
    DeeperExtends(nodes, edges, root, Clamp(less), Clamp(more));
    DeeperExtends(nodes, Reverse(edges), root, Clamp(less), Clamp(more));
  }
}
