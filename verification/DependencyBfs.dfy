/**
 The rows of the topology tables, and the depth-bounded breadth-first search that
 `gather_dependency_context` runs twice over them.

 The search is specified by `Explore`, one queue step at a time.  `SearchIsExact` then
 relates it to walks in the graph, a definition that knows nothing about queues, and
 `DeeperExtends` compares two depth bounds.
*/
module Topology {
  import opened Wrappers

  type EntityId(==, !new)

  datatype Node = Node(
    entityId: EntityId,
    entityType: string,
    displayName: string,
    hostIp: Option<string>,
    source: string,
    manuallyEdited: bool,
    lastSeen: Option<int>,
    metadata: string)

  datatype Edge = Edge(
    fromEntity: EntityId,
    toEntity: EntityId,
    edgeType: string,
    source: string,
    manuallyEdited: bool,
    lastSeen: Option<int>)

  type Nodes = map<EntityId, Node>

  /** Every node is filed under its own id. */
  ghost predicate Keyed(nodes: Nodes) {
    forall id :: id in nodes ==> nodes[id].entityId == id
  }

  function ReverseEdge(e: Edge): Edge {
    e.(fromEntity := e.toEntity, toEntity := e.fromEntity)
  }

  /** The same edges, each pointing the other way, in the same order. */
  function Reverse(edges: seq<Edge>): seq<Edge> {
    seq(|edges|, i requires 0 <= i < |edges| => ReverseEdge(edges[i]))
  }
}

module DependencyBfs {
  import opened Wrappers
  import opened Topology

  /** A queue entry: an id and the depth it was discovered at. */
  datatype Hop = Hop(id: EntityId, depth: nat)

  datatype DependencyNode = DependencyNode(
    entityId: EntityId,
    entityType: string,
    displayName: string,
    hostIp: Option<string>,
    edgeType: string,
    depth: nat)

  /** The loop variables of one search: the deque, the visited set and the result list. */
  datatype Search = Search(frontier: seq<Hop>, visited: set<EntityId>, found: seq<DependencyNode>)

  function Describe(n: Node, edgeType: string, depth: nat): DependencyNode {
    DependencyNode(n.entityId, n.entityType, n.displayName, n.hostIp, edgeType, depth)
  }

  function Start(root: EntityId): Search {
    Search([Hop(root, 0)], {root}, [])
  }

  /** Is `e` followed from `current`? */
  predicate Follows(nodes: Nodes, e: Edge, current: EntityId, visited: set<EntityId>) {
    e.fromEntity == current && e.toEntity !in visited && e.toEntity in nodes
  }

  /** One edge, looked at while `current` is being expanded at `depth`. */
  function Visit(nodes: Nodes, e: Edge, current: EntityId, depth: nat, s: Search): Search {
    if Follows(nodes, e, current, s.visited) then
      Search(s.frontier + [Hop(e.toEntity, depth + 1)],
             s.visited + {e.toEntity},
             s.found + [Describe(nodes[e.toEntity], e.edgeType, depth + 1)])
    else s
  }

  /** Ids still undiscovered plus ids still queued: what bounds the search. */
  ghost function Work(nodes: Nodes, s: Search): nat {
    |nodes.Keys - s.visited| + |s.frontier|
  }

  /** The inner loop: all edges in list order. */
  function VisitAll(nodes: Nodes, edges: seq<Edge>, current: EntityId, depth: nat, s: Search): Search {
    if edges == [] then s
    else
      var n := |edges| - 1;
      Visit(nodes, edges[n], current, depth, VisitAll(nodes, edges[..n], current, depth, s))
  }

  lemma {:induction false} VisitAllWork(nodes: Nodes, edges: seq<Edge>, current: EntityId, depth: nat, s: Search)
    ensures Work(nodes, VisitAll(nodes, edges, current, depth, s)) == Work(nodes, s)
  {
    if edges != [] {
      var n := |edges| - 1;
      VisitAllWork(nodes, edges[..n], current, depth, s);
      var before := VisitAll(nodes, edges[..n], current, depth, s);
      var id := edges[n].toEntity;
      if Follows(nodes, edges[n], current, before.visited) {
        assert nodes.Keys - (before.visited + {id}) == nodes.Keys - before.visited - {id};
      }
    }
  }

  /** The outer loop: pop, expand unless at the bound, repeat. */
  function Explore(nodes: Nodes, edges: seq<Edge>, bound: nat, s: Search): Search
    decreases Work(nodes, s)
  {
    if s.frontier == [] then s
    else
      var Hop(current, depth) := s.frontier[0];
      var rest := s.(frontier := s.frontier[1..]);
      if depth >= bound then Explore(nodes, edges, bound, rest)
      else
        VisitAllWork(nodes, edges, current, depth, rest);
        Explore(nodes, edges, bound, VisitAll(nodes, edges, current, depth, rest))
  }

  function Bfs(nodes: Nodes, edges: seq<Edge>, root: EntityId, bound: nat): seq<DependencyNode> {
    Explore(nodes, edges, bound, Start(root)).found
  }

  // ----- Walks: what the search is measured against -----

  ghost predicate Linked(edges: seq<Edge>, a: EntityId, b: EntityId) {
    exists e :: e in edges && e.fromEntity == a && e.toEntity == b
  }

  /** A nonempty chain of existing nodes, each linked to the next. */
  ghost predicate IsWalk(nodes: Nodes, edges: seq<Edge>, w: seq<EntityId>) {
    && w != []
    && (forall i :: 0 <= i < |w| ==> w[i] in nodes)
    && (forall i :: 0 <= i < |w| - 1 ==> Linked(edges, w[i], w[i + 1]))
  }

  ghost predicate Connects(nodes: Nodes, edges: seq<Edge>, w: seq<EntityId>, a: EntityId, b: EntityId) {
    IsWalk(nodes, edges, w) && w[0] == a && w[|w| - 1] == b
  }

  /** `b` can be reached from `a` in exactly `hops` edges. */
  ghost predicate Reaches(nodes: Nodes, edges: seq<Edge>, a: EntityId, b: EntityId, hops: nat) {
    exists w :: Connects(nodes, edges, w, a, b) && |w| == hops + 1
  }

  ghost predicate ReachesWithin(nodes: Nodes, edges: seq<Edge>, a: EntityId, b: EntityId, bound: nat) {
    exists hops: nat :: hops <= bound && Reaches(nodes, edges, a, b, hops)
  }

  ghost predicate IsDistance(nodes: Nodes, edges: seq<Edge>, a: EntityId, b: EntityId, d: nat) {
    Reaches(nodes, edges, a, b, d) && forall hops: nat :: Reaches(nodes, edges, a, b, hops) ==> d <= hops
  }

  // ----- What the result list promises -----

  ghost predicate Listed(found: seq<DependencyNode>, id: EntityId) {
    exists i :: 0 <= i < |found| && found[i].entityId == id
  }

  /**
   The result list of a search, described without the search: the ids it lists, each once,
   are those other than the root that a walk of at most `bound` edges reaches; `depth` is the
   distance; the list is in order of distance; and each entry carries its own node's fields
   together with the type of an edge from a node one step nearer the root.
   */
  ghost predicate IsNeighbourhood(nodes: Nodes, edges: seq<Edge>, root: EntityId, bound: nat, found: seq<DependencyNode>) {
    && (forall id :: Listed(found, id) <==>
          id != root && ReachesWithin(nodes, edges, root, id, bound))
    && (forall i, j :: 0 <= i < j < |found| ==> found[i].entityId != found[j].entityId)
    && (forall i, j :: 0 <= i < j < |found| ==> found[i].depth <= found[j].depth)
    && (forall i :: 0 <= i < |found| ==> IsDistance(nodes, edges, root, found[i].entityId, found[i].depth))
    && (forall i :: 0 <= i < |found| ==> IsEntry(nodes, edges, root, found[i]))
  }

  /** The entry carries the node's own fields. */
  ghost predicate Shows(f: DependencyNode, n: Node) {
    f.entityId == n.entityId && f.entityType == n.entityType && f.displayName == n.displayName && f.hostIp == n.hostIp
  }

  ghost predicate IsEntry(nodes: Nodes, edges: seq<Edge>, root: EntityId, f: DependencyNode) {
    && f.entityId in nodes
    && f.depth >= 1
    && Shows(f, nodes[f.entityId])
    && exists e :: e in edges && e.toEntity == f.entityId && e.edgeType == f.edgeType
                   && Reaches(nodes, edges, root, e.fromEntity, f.depth - 1)
  }

  // ----- The search invariant -----

  /** The depth each visited id was discovered at. */
  type Depths = map<EntityId, nat>

  ghost predicate Queued(frontier: seq<Hop>, id: EntityId) {
    exists k :: 0 <= k < |frontier| && frontier[k].id == id
  }

  /** `e` leads on from `u`, which is below the bound, to an existing node. */
  ghost predicate LeadsOn(nodes: Nodes, edges: seq<Edge>, bound: nat, d: Depths, u: EntityId, e: Edge) {
    u in d && d[u] < bound && e in edges && e.fromEntity == u && e.toEntity in nodes
  }

  ghost predicate KnownBy(d: Depths, id: EntityId, depth: nat) {
    id in d && d[id] <= depth
  }

  /** Every visited id that is no longer queued, except `pending`, has all its successors visited in time. */
  ghost predicate Closed(nodes: Nodes, edges: seq<Edge>, bound: nat, d: Depths, frontier: seq<Hop>, pending: Option<EntityId>) {
    forall u, e {:trigger LeadsOn(nodes, edges, bound, d, u, e)} ::
      LeadsOn(nodes, edges, bound, d, u, e) && !Queued(frontier, u) && pending != Some(u) ==>
        KnownBy(d, e.toEntity, d[u] + 1)
  }

  /** The queue is sorted by depth and agrees with the recorded depths. */
  ghost predicate QueueOk(d: Depths, frontier: seq<Hop>) {
    && (forall k :: 0 <= k < |frontier| ==> frontier[k].id in d && d[frontier[k].id] == frontier[k].depth)
    && (forall i, j :: 0 <= i < j < |frontier| ==> frontier[i].depth <= frontier[j].depth)
  }

  /** The result list is sorted by depth, lists each visited id but the root once, and describes it correctly. */
  ghost predicate FoundOk(nodes: Nodes, edges: seq<Edge>, root: EntityId, bound: nat, d: Depths, found: seq<DependencyNode>) {
    && (forall i :: 0 <= i < |found| ==> found[i].entityId in d && found[i].entityId != root)
    && (forall i :: 0 <= i < |found| ==> d[found[i].entityId] == found[i].depth <= bound)
    && (forall i :: 0 <= i < |found| ==> IsEntry(nodes, edges, root, found[i]))
    && (forall i, j :: 0 <= i < j < |found| ==> found[i].entityId != found[j].entityId)
    && (forall i, j :: 0 <= i < j < |found| ==> found[i].depth <= found[j].depth)
    && (forall id {:trigger Listed(found, id)} :: id in d && id != root ==> Listed(found, id))
  }

  /** Recorded depths are lengths of walks, and none exceeds `cap` or the bound. */
  ghost predicate DepthsOk(nodes: Nodes, edges: seq<Edge>, root: EntityId, bound: nat, cap: nat, d: Depths) {
    && root in d
    && d[root] == 0
    && (forall id :: id in d ==> d[id] <= cap && d[id] <= bound)
    && (forall id {:trigger Reaches(nodes, edges, root, id, d[id])} :: id in d ==> Reaches(nodes, edges, root, id, d[id]))
  }

  /** `pending` is the id being expanded, if any; `cap` is one more than the depth being expanded. */
  ghost predicate Inv(nodes: Nodes, edges: seq<Edge>, root: EntityId, bound: nat, d: Depths, s: Search, pending: Option<EntityId>, cap: nat) {
    && d.Keys == s.visited
    && DepthsOk(nodes, edges, root, bound, cap, d)
    && QueueOk(d, s.frontier)
    && FoundOk(nodes, edges, root, bound, d, s.found)
    && Closed(nodes, edges, bound, d, s.frontier, pending)
  }

  lemma {:induction false} Append(nodes: Nodes, edges: seq<Edge>, a: EntityId, b: EntityId, c: EntityId, hops: nat)
    requires Reaches(nodes, edges, a, b, hops) && Linked(edges, b, c) && c in nodes
    ensures Reaches(nodes, edges, a, c, hops + 1)
  {
    var w :| Connects(nodes, edges, w, a, b) && |w| == hops + 1;
    assert Connects(nodes, edges, w + [c], a, c);
  }

  ghost predicate AllAtLeast(frontier: seq<Hop>, d: nat) {
    forall k :: 0 <= k < |frontier| ==> d <= frontier[k].depth
  }

  lemma {:induction false} ListedGrows(found: seq<DependencyNode>, f: DependencyNode, id: EntityId)
    ensures Listed(found + [f], id) <==> Listed(found, id) || id == f.entityId
  {
    var r := found + [f];
    if Listed(found, id) {
      var i :| 0 <= i < |found| && found[i].entityId == id;
      assert r[i].entityId == id;
    }
    assert r[|found|] == f;
  }

  lemma {:induction false} FoundGrows(nodes: Nodes, edges: seq<Edge>, root: EntityId, bound: nat, d: Depths, found: seq<DependencyNode>, f: DependencyNode)
    requires FoundOk(nodes, edges, root, bound, d, found)
    requires f.entityId !in d && f.entityId != root && f.depth <= bound && IsEntry(nodes, edges, root, f)
    requires forall id :: id in d ==> d[id] <= f.depth
    ensures FoundOk(nodes, edges, root, bound, d[f.entityId := f.depth], found + [f])
  {
    forall id | id in d[f.entityId := f.depth] && id != root
      ensures Listed(found + [f], id)
    {
      ListedGrows(found, f, id);
      assert id in d ==> Listed(found, id);
    }
  }

  lemma {:induction false} ClosedGrows(nodes: Nodes, edges: seq<Edge>, bound: nat, d: Depths, frontier: seq<Hop>, pending: Option<EntityId>, x: Hop)
    requires Closed(nodes, edges, bound, d, frontier, pending) && x.id !in d
    ensures Closed(nodes, edges, bound, d[x.id := x.depth], frontier + [x], pending)
  {
    var g := d[x.id := x.depth];
    var q := frontier + [x];
    forall u, e | LeadsOn(nodes, edges, bound, g, u, e) && !Queued(q, u) && pending != Some(u)
      ensures KnownBy(g, e.toEntity, g[u] + 1)
    {
      assert q[|frontier|] == x;
      assert forall k :: 0 <= k < |frontier| ==> q[k] == frontier[k];
      assert LeadsOn(nodes, edges, bound, d, u, e) && !Queued(frontier, u);
    }
  }

  /** An edge that is followed. */
  lemma {:induction false} FollowKeeps(nodes: Nodes, edges: seq<Edge>, root: EntityId, bound: nat, e: Edge, current: EntityId, depth: nat, d: Depths, s: Search)
    requires Keyed(nodes) && e in edges && depth < bound
    requires current in d && d[current] == depth
    requires Inv(nodes, edges, root, bound, d, s, Some(current), depth + 1)
    requires Follows(nodes, e, current, s.visited)
    ensures Inv(nodes, edges, root, bound, d[e.toEntity := depth + 1], Visit(nodes, e, current, depth, s), Some(current), depth + 1)
  {
    var f := Describe(nodes[e.toEntity], e.edgeType, depth + 1);
    assert Linked(edges, current, e.toEntity);
    assert Reaches(nodes, edges, root, current, d[current]);
    Append(nodes, edges, root, current, e.toEntity, depth);
    FoundGrows(nodes, edges, root, bound, d, s.found, f);
    ClosedGrows(nodes, edges, bound, d, s.frontier, Some(current), Hop(e.toEntity, depth + 1));
  }

  lemma {:induction false} VisitAllKeeps(nodes: Nodes, edges: seq<Edge>, root: EntityId, bound: nat, n: nat, current: EntityId, depth: nat, d: Depths, s: Search)
      returns (g: Depths)
    requires Keyed(nodes) && n <= |edges| && depth < bound && AllAtLeast(s.frontier, depth)
    requires current in d && d[current] == depth
    requires Inv(nodes, edges, root, bound, d, s, Some(current), depth + 1)
    ensures current in g && g[current] == depth
    ensures Inv(nodes, edges, root, bound, g, VisitAll(nodes, edges[..n], current, depth, s), Some(current), depth + 1)
    ensures forall i :: 0 <= i < n && edges[i].fromEntity == current && edges[i].toEntity in nodes ==> edges[i].toEntity in g
    ensures AllAtLeast(VisitAll(nodes, edges[..n], current, depth, s).frontier, depth)
  {
    g := d;
    if n > 0 {
      g := VisitAllKeeps(nodes, edges, root, bound, n - 1, current, depth, d, s);
      assert edges[..n][..n - 1] == edges[..n - 1];
      var before := VisitAll(nodes, edges[..n - 1], current, depth, s);
      var e := edges[n - 1];
      if Follows(nodes, e, current, before.visited) {
        FollowKeeps(nodes, edges, root, bound, e, current, depth, g, before);
        g := g[e.toEntity := depth + 1];
      }
    }
  }

  /** One iteration of the outer loop. */
  function Advance(nodes: Nodes, edges: seq<Edge>, bound: nat, s: Search): Search
    requires s.frontier != []
  {
    var Hop(current, depth) := s.frontier[0];
    var rest := s.(frontier := s.frontier[1..]);
    if depth >= bound then rest else VisitAll(nodes, edges, current, depth, rest)
  }

  lemma {:induction false} AdvanceWork(nodes: Nodes, edges: seq<Edge>, bound: nat, s: Search)
    requires s.frontier != []
    ensures Work(nodes, Advance(nodes, edges, bound, s)) == Work(nodes, s) - 1
  {
    var rest := s.(frontier := s.frontier[1..]);
    VisitAllWork(nodes, edges, s.frontier[0].id, s.frontier[0].depth, rest);
  }

  /** The cap that goes with the head of the queue. */
  ghost function CapOf(bound: nat, frontier: seq<Hop>): nat {
    if frontier == [] then bound else frontier[0].depth + 1
  }

  ghost predicate LoopInv(nodes: Nodes, edges: seq<Edge>, root: EntityId, bound: nat, d: Depths, s: Search) {
    Inv(nodes, edges, root, bound, d, s, None, CapOf(bound, s.frontier))
  }

  lemma {:induction false} PopKeeps(nodes: Nodes, edges: seq<Edge>, root: EntityId, bound: nat, d: Depths, s: Search)
    requires LoopInv(nodes, edges, root, bound, d, s) && s.frontier != []
    ensures Inv(nodes, edges, root, bound, d, s.(frontier := s.frontier[1..]), Some(s.frontier[0].id), s.frontier[0].depth + 1)
  {
    var rest := s.frontier[1..];
    forall u, e | LeadsOn(nodes, edges, bound, d, u, e) && !Queued(rest, u) && u != s.frontier[0].id
      ensures !Queued(s.frontier, u)
    {
      assert forall k :: 1 <= k < |s.frontier| ==> rest[k - 1] == s.frontier[k];
    }
  }

  lemma {:induction false} AdvanceKeeps(nodes: Nodes, edges: seq<Edge>, root: EntityId, bound: nat, d: Depths, s: Search) returns (g: Depths)
    requires Keyed(nodes) && LoopInv(nodes, edges, root, bound, d, s) && s.frontier != []
    ensures LoopInv(nodes, edges, root, bound, g, Advance(nodes, edges, bound, s))
  {
    var Hop(current, depth) := s.frontier[0];
    PopKeeps(nodes, edges, root, bound, d, s);
    var rest := s.(frontier := s.frontier[1..]);
    g := d;
    if depth < bound {
      g := VisitAllKeeps(nodes, edges, root, bound, |edges|, current, depth, d, rest);
      assert edges[..|edges|] == edges;
    }
  }

  lemma {:induction false} ExploreKeeps(nodes: Nodes, edges: seq<Edge>, root: EntityId, bound: nat, d: Depths, s: Search)
      returns (g: Depths)
    requires Keyed(nodes) && LoopInv(nodes, edges, root, bound, d, s)
    ensures var r := Explore(nodes, edges, bound, s);
      LoopInv(nodes, edges, root, bound, g, r) && r.frontier == []
    decreases Work(nodes, s)
  {
    g := d;
    if s.frontier != [] {
      g := AdvanceKeeps(nodes, edges, root, bound, d, s);
      AdvanceWork(nodes, edges, bound, s);
      g := ExploreKeeps(nodes, edges, root, bound, g, Advance(nodes, edges, bound, s));
    }
  }

  lemma {:induction false} StartInv(nodes: Nodes, edges: seq<Edge>, root: EntityId, bound: nat)
    requires root in nodes
    ensures LoopInv(nodes, edges, root, bound, map[root := 0], Start(root))
  {
    var s := Start(root);
    assert s.frontier[0] == Hop(root, 0);
    assert Queued(s.frontier, root);
    assert Connects(nodes, edges, [root], root, root);
    assert Reaches(nodes, edges, root, root, 0);
  }

  /** A finished search has visited the end of every walk no longer than the bound, at a depth no greater than its length. */
  lemma {:induction false} WalksAreKnown(nodes: Nodes, edges: seq<Edge>, bound: nat, d: Depths, w: seq<EntityId>)
    requires Closed(nodes, edges, bound, d, [], None)
    requires IsWalk(nodes, edges, w) && KnownBy(d, w[0], 0) && |w| - 1 <= bound
    ensures KnownBy(d, w[|w| - 1], |w| - 1)
    decreases |w|
  {
    var n := |w| - 1;
    if n > 0 {
      assert w[..n][n - 1] == w[n - 1];
      WalksAreKnown(nodes, edges, bound, d, w[..n]);
      assert Linked(edges, w[n - 1], w[n - 1 + 1]);
      var e :| e in edges && e.fromEntity == w[n - 1] && e.toEntity == w[n];
      assert LeadsOn(nodes, edges, bound, d, w[n - 1], e);
    }
  }

  lemma {:induction false} DistanceFromSearch(nodes: Nodes, edges: seq<Edge>, root: EntityId, bound: nat, d: Depths, s: Search, id: EntityId)
    requires LoopInv(nodes, edges, root, bound, d, s) && s.frontier == [] && id in d
    ensures IsDistance(nodes, edges, root, id, d[id])
  {
    assert Reaches(nodes, edges, root, id, d[id]);
    forall hops: nat | Reaches(nodes, edges, root, id, hops)
      ensures d[id] <= hops
    {
      if hops <= bound {
        var w :| Connects(nodes, edges, w, root, id) && |w| == hops + 1;
        WalksAreKnown(nodes, edges, bound, d, w);
      }
    }
  }

  lemma {:induction false} ListedIffReached(nodes: Nodes, edges: seq<Edge>, root: EntityId, bound: nat, d: Depths, s: Search, id: EntityId)
    requires LoopInv(nodes, edges, root, bound, d, s) && s.frontier == []
    ensures Listed(s.found, id) <==> id != root && ReachesWithin(nodes, edges, root, id, bound)
  {
    if Listed(s.found, id) {
      var i :| 0 <= i < |s.found| && s.found[i].entityId == id;
      assert Reaches(nodes, edges, root, id, d[id]);
    }
    if id != root && ReachesWithin(nodes, edges, root, id, bound) {
      var hops: nat :| hops <= bound && Reaches(nodes, edges, root, id, hops);
      var w :| Connects(nodes, edges, w, root, id) && |w| == hops + 1;
      WalksAreKnown(nodes, edges, bound, d, w);
    }
  }

  lemma {:induction false} SearchIsExact(nodes: Nodes, edges: seq<Edge>, root: EntityId, bound: nat)
    requires Keyed(nodes) && root in nodes
    ensures IsNeighbourhood(nodes, edges, root, bound, Bfs(nodes, edges, root, bound))
  {
    StartInv(nodes, edges, root, bound);
    var d := ExploreKeeps(nodes, edges, root, bound, map[root := 0], Start(root));
    var s := Explore(nodes, edges, bound, Start(root));
    forall i | 0 <= i < |s.found|
      ensures IsDistance(nodes, edges, root, s.found[i].entityId, s.found[i].depth)
    {
      DistanceFromSearch(nodes, edges, root, bound, d, s, s.found[i].entityId);
    }
    forall id
      ensures Listed(s.found, id) <==> id != root && ReachesWithin(nodes, edges, root, id, bound)
    {
      ListedIffReached(nodes, edges, root, bound, d, s, id);
    }
  }

  // ----- Two depth bounds -----

  /** Ids queued at or past the bound add nothing. */
  lemma {:induction false} PastBound(nodes: Nodes, edges: seq<Edge>, bound: nat, s: Search)
    requires AllAtLeast(s.frontier, bound)
    ensures Explore(nodes, edges, bound, s).found == s.found
    decreases |s.frontier|
  {
    if s.frontier != [] {
      PastBound(nodes, edges, bound, s.(frontier := s.frontier[1..]));
    }
  }

  lemma {:induction false} VisitAllGrows(nodes: Nodes, edges: seq<Edge>, current: EntityId, depth: nat, s: Search)
    ensures s.found <= VisitAll(nodes, edges, current, depth, s).found
  {
    if edges != [] {
      VisitAllGrows(nodes, edges[..|edges| - 1], current, depth, s);
    }
  }

  lemma {:induction false} ExploreGrows(nodes: Nodes, edges: seq<Edge>, bound: nat, s: Search)
    ensures s.found <= Explore(nodes, edges, bound, s).found
    decreases Work(nodes, s)
  {
    if s.frontier != [] {
      var Hop(current, depth) := s.frontier[0];
      var rest := s.(frontier := s.frontier[1..]);
      if depth < bound {
        VisitAllGrows(nodes, edges, current, depth, rest);
      }
      AdvanceWork(nodes, edges, bound, s);
      ExploreGrows(nodes, edges, bound, Advance(nodes, edges, bound, s));
    }
  }

  /** The search with the smaller bound stops short of the other; until then the two are in step. */
  lemma {:induction false} InStep(nodes: Nodes, edges: seq<Edge>, root: EntityId, small: nat, large: nat, d: Depths, s: Search)
    requires small <= large && Keyed(nodes) && LoopInv(nodes, edges, root, small, d, s)
    ensures Explore(nodes, edges, small, s).found <= Explore(nodes, edges, large, s).found
    decreases Work(nodes, s)
  {
    if s.frontier != [] {
      var Hop(current, depth) := s.frontier[0];
      if depth < small {
        var g := AdvanceKeeps(nodes, edges, root, small, d, s);
        AdvanceWork(nodes, edges, small, s);
        InStep(nodes, edges, root, small, large, g, Advance(nodes, edges, small, s));
      } else {
        PastBound(nodes, edges, small, s);
        ExploreGrows(nodes, edges, large, s);
      }
    }
  }

  lemma {:induction false} DeeperExtends(nodes: Nodes, edges: seq<Edge>, root: EntityId, small: nat, large: nat)
    requires Keyed(nodes) && root in nodes && small <= large
    ensures Bfs(nodes, edges, root, small) <= Bfs(nodes, edges, root, large)
  {
    StartInv(nodes, edges, root, small);
    InStep(nodes, edges, root, small, large, map[root := 0], Start(root));
  }
}
