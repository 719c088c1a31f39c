/**
 The order in which the dependency search lists what it finds: by the place of the node it was
 found from, and among the finds of one node by the place of the edge.
*/
module SearchOrder {
  import opened Topology
  import opened DependencyBfs

  /** Where a node was found from: a place in the list, 0 being the root's, and an edge. */
  datatype Source = Source(place: nat, edge: nat)

  predicate Before(a: Source, b: Source) {
    a.place < b.place || (a.place == b.place && a.edge < b.edge)
  }

  function IdAt(root: EntityId, found: seq<DependencyNode>, place: nat): EntityId
    requires place <= |found|
  {
    if place == 0 then root else found[place - 1].entityId
  }

  function DepthAt(found: seq<DependencyNode>, place: nat): nat
    requires place <= |found|
  {
    if place == 0 then 0 else found[place - 1].depth
  }

  /** The edge leads on from the node at the place, which is below the bound. */
  ghost predicate Leads(edges: seq<Edge>, root: EntityId, bound: nat, found: seq<DependencyNode>, s: Source) {
    s.place <= |found| && s.edge < |edges| && DepthAt(found, s.place) < bound && edges[s.edge].fromEntity == IdAt(root, found, s.place)
  }

  /** The entry was found from there: one deeper, with the edge's type. */
  ghost predicate FoundFrom(edges: seq<Edge>, root: EntityId, bound: nat, found: seq<DependencyNode>, i: nat, s: Source)
    requires i < |found|
  {
    && Leads(edges, root, bound, found, s) && s.place <= i
    && edges[s.edge].toEntity == found[i].entityId && edges[s.edge].edgeType == found[i].edgeType
    && found[i].depth == DepthAt(found, s.place) + 1
  }

  /** Nothing that comes earlier leads to the entry. */
  ghost predicate FoundFirst(edges: seq<Edge>, root: EntityId, bound: nat, found: seq<DependencyNode>, i: nat, s: Source)
    requires i < |found|
  {
    forall t {:trigger Leads(edges, root, bound, found, t)} ::
      Leads(edges, root, bound, found, t) && edges[t.edge].toEntity == found[i].entityId ==> !Before(t, s)
  }

  /** Every entry is listed where its first source puts it. */
  ghost predicate InSearchOrder(edges: seq<Edge>, root: EntityId, bound: nat, found: seq<DependencyNode>, from: seq<Source>) {
    && |from| == |found|
    && (forall i :: 0 <= i < |found| ==> FoundFrom(edges, root, bound, found, i, from[i]) && FoundFirst(edges, root, bound, found, i, from[i]))
    && (forall i, j :: 0 <= i < j < |found| ==> Before(from[i], from[j]))
  }

  // ----- The search so far -----

  /** The queue holds the root and the entries from a place on. */
  ghost predicate QueuedFrom(root: EntityId, s: Search, first: nat) {
    && |s.frontier| + first == |s.found| + 1
    && forall k :: 0 <= k < |s.frontier| ==> s.frontier[k] == Hop(IdAt(root, s.found, first + k), DepthAt(s.found, first + k))
  }

  /** Visited are the root and the entries, which are listed once. */
  ghost predicate VisitedOnce(root: EntityId, s: Search) {
    && (forall id :: id in s.visited <==> id == root || Listed(s.found, id))
    && (forall i, j :: 0 <= i < j < |s.found| ==> s.found[i].entityId != s.found[j].entityId)
    && (forall i :: 0 <= i < |s.found| ==> s.found[i].entityId != root)
  }

  /** Each entry has a source before `now`, in their order. */
  ghost predicate Sourced(edges: seq<Edge>, root: EntityId, bound: nat, found: seq<DependencyNode>, from: seq<Source>, now: Source) {
    && |from| == |found|
    && (forall i :: 0 <= i < |found| ==> FoundFrom(edges, root, bound, found, i, from[i]) && Before(from[i], now))
    && (forall i, j :: 0 <= i < j < |found| ==> Before(from[i], from[j]))
  }

  /** The entry is listed, and not from later than `t`. */
  ghost predicate KnownAt(found: seq<DependencyNode>, from: seq<Source>, t: Source, id: EntityId) {
    exists i :: 0 <= i < |found| && i < |from| && found[i].entityId == id && !Before(t, from[i])
  }

  /** Whatever comes before `now` leads only to the root, to entries found by then, or to nothing. */
  ghost predicate Scanned(nodes: Nodes, edges: seq<Edge>, root: EntityId, bound: nat, found: seq<DependencyNode>, from: seq<Source>, now: Source) {
    forall t {:trigger Leads(edges, root, bound, found, t)} ::
      Leads(edges, root, bound, found, t) && Before(t, now) && edges[t.edge].toEntity in nodes && edges[t.edge].toEntity != root ==>
        KnownAt(found, from, t, edges[t.edge].toEntity)
  }

  ghost predicate Upto(nodes: Nodes, edges: seq<Edge>, root: EntityId, bound: nat, s: Search, from: seq<Source>, first: nat, now: Source) {
    && QueuedFrom(root, s, first) && VisitedOnce(root, s)
    && Sourced(edges, root, bound, s.found, from, now) && Scanned(nodes, edges, root, bound, s.found, from, now)
  }

  lemma {:induction false} LeadsMore(edges: seq<Edge>, root: EntityId, bound: nat, found: seq<DependencyNode>, f: DependencyNode, t: Source)
    requires t.place <= |found|
    ensures Leads(edges, root, bound, found + [f], t) <==> Leads(edges, root, bound, found, t)
    ensures IdAt(root, found + [f], t.place) == IdAt(root, found, t.place) && DepthAt(found + [f], t.place) == DepthAt(found, t.place)
  {
  }

  lemma {:induction false} KnownMore(found: seq<DependencyNode>, from: seq<Source>, f: DependencyNode, s: Source, t: Source, id: EntityId)
    requires |from| == |found| && KnownAt(found, from, t, id)
    ensures KnownAt(found + [f], from + [s], t, id)
  {
    var i :| 0 <= i < |found| && i < |from| && found[i].entityId == id && !Before(t, from[i]);
    assert (found + [f])[i].entityId == id && (from + [s])[i] == from[i];
  }

  /** A find keeps the sources in order. */
  lemma {:induction false} SourcedMore(edges: seq<Edge>, root: EntityId, bound: nat, found: seq<DependencyNode>, from: seq<Source>, now: Source, f: DependencyNode)
    requires Sourced(edges, root, bound, found, from, now) && Leads(edges, root, bound, found, now)
    requires f.entityId == edges[now.edge].toEntity && f.edgeType == edges[now.edge].edgeType && f.depth == DepthAt(found, now.place) + 1
    ensures Sourced(edges, root, bound, found + [f], from + [now], Source(now.place, now.edge + 1))
  {
    var more, from' := found + [f], from + [now];
    LeadsMore(edges, root, bound, found, f, now);
    forall i | 0 <= i < |more|
      ensures FoundFrom(edges, root, bound, more, i, from'[i]) && Before(from'[i], Source(now.place, now.edge + 1))
    {
      if i < |found| {
        assert FoundFrom(edges, root, bound, found, i, from[i]);
        LeadsMore(edges, root, bound, found, f, from[i]);
      }
    }
  }

  /** A find is known from here on. */
  lemma {:induction false} ScannedMore(nodes: Nodes, edges: seq<Edge>, root: EntityId, bound: nat, found: seq<DependencyNode>, from: seq<Source>, now: Source, f: DependencyNode)
    requires |from| == |found| && Scanned(nodes, edges, root, bound, found, from, now) && now.place <= |found| && now.edge < |edges|
    requires f.entityId == edges[now.edge].toEntity
    ensures Scanned(nodes, edges, root, bound, found + [f], from + [now], Source(now.place, now.edge + 1))
  {
    var more, from' := found + [f], from + [now];
    forall t | Leads(edges, root, bound, more, t) && Before(t, Source(now.place, now.edge + 1))
               && edges[t.edge].toEntity in nodes && edges[t.edge].toEntity != root
      ensures KnownAt(more, from', t, edges[t.edge].toEntity)
    {
      if t == now {
        assert more[|found|] == f && from'[|found|] == now;
      } else {
        LeadsMore(edges, root, bound, found, f, t);
        KnownMore(found, from, f, now, t, edges[t.edge].toEntity);
      }
    }
  }

  /** An edge that is not followed leads nowhere new. */
  lemma {:induction false} ScannedPast(nodes: Nodes, edges: seq<Edge>, root: EntityId, bound: nat, s: Search, from: seq<Source>, now: Source)
    requires Scanned(nodes, edges, root, bound, s.found, from, now) && VisitedOnce(root, s) && Sourced(edges, root, bound, s.found, from, now)
    requires now.place <= |s.found| && now.edge < |edges| && !Follows(nodes, edges[now.edge], IdAt(root, s.found, now.place), s.visited)
    ensures Scanned(nodes, edges, root, bound, s.found, from, Source(now.place, now.edge + 1))
  {
    forall t | Leads(edges, root, bound, s.found, t) && Before(t, Source(now.place, now.edge + 1))
               && edges[t.edge].toEntity in nodes && edges[t.edge].toEntity != root
      ensures KnownAt(s.found, from, t, edges[t.edge].toEntity)
    {
      if t == now {
        assert Listed(s.found, edges[t.edge].toEntity);
        var i :| 0 <= i < |s.found| && s.found[i].entityId == edges[t.edge].toEntity;
        assert Before(from[i], now);
      }
    }
  }

  lemma {:induction false} VisitedMore(root: EntityId, s: Search, f: DependencyNode, frontier: seq<Hop>)
    requires VisitedOnce(root, s) && f.entityId !in s.visited
    ensures VisitedOnce(root, Search(frontier, s.visited + {f.entityId}, s.found + [f]))
  {
    forall id
      ensures Listed(s.found + [f], id) <==> Listed(s.found, id) || id == f.entityId
    {
      ListedGrows(s.found, f, id);
    }
    forall i | 0 <= i < |s.found|
      ensures s.found[i].entityId != f.entityId
    {
      assert Listed(s.found, s.found[i].entityId);
    }
  }

  lemma {:induction false} QueuedMore(root: EntityId, s: Search, first: nat, f: DependencyNode, visited: set<EntityId>)
    requires QueuedFrom(root, s, first)
    ensures QueuedFrom(root, Search(s.frontier + [Hop(f.entityId, f.depth)], visited, s.found + [f]), first)
  {
    var r := Search(s.frontier + [Hop(f.entityId, f.depth)], visited, s.found + [f]);
    forall k | 0 <= k < |r.frontier|
      ensures r.frontier[k] == Hop(IdAt(root, r.found, first + k), DepthAt(r.found, first + k))
    {
      if k < |s.frontier| {
        assert s.frontier[k] == Hop(IdAt(root, s.found, first + k), DepthAt(s.found, first + k));
      }
    }
  }

  /** Looking at one edge. */
  lemma {:induction false} VisitUpto(nodes: Nodes, edges: seq<Edge>, root: EntityId, bound: nat, s: Search, from: seq<Source>, first: nat, now: Source, current: EntityId, depth: nat)
      returns (from': seq<Source>)
    requires Keyed(nodes) && Upto(nodes, edges, root, bound, s, from, first, now) && now.edge < |edges| && now.place <= |s.found|
    requires current == IdAt(root, s.found, now.place) && depth == DepthAt(s.found, now.place) < bound
    ensures Upto(nodes, edges, root, bound, Visit(nodes, edges[now.edge], current, depth, s), from', first, Source(now.place, now.edge + 1))
  {
    var e := edges[now.edge];
    if Follows(nodes, e, current, s.visited) {
      var f := Describe(nodes[e.toEntity], e.edgeType, depth + 1);
      from' := from + [now];
      SourcedMore(edges, root, bound, s.found, from, now, f);
      ScannedMore(nodes, edges, root, bound, s.found, from, now, f);
      VisitedMore(root, s, f, s.frontier + [Hop(f.entityId, f.depth)]);
      QueuedMore(root, s, first, f, s.visited + {f.entityId});
    } else {
      from' := from;
      ScannedPast(nodes, edges, root, bound, s, from, now);
      SourcedLater(edges, root, bound, s.found, from, now, Source(now.place, now.edge + 1));
    }
  }

  lemma {:induction false} SourcedLater(edges: seq<Edge>, root: EntityId, bound: nat, found: seq<DependencyNode>, from: seq<Source>, now: Source, later: Source)
    requires Sourced(edges, root, bound, found, from, now) && Before(now, later)
    ensures Sourced(edges, root, bound, found, from, later)
  {
  }

  /** Expanding the node at a place. */
  lemma {:induction false} VisitAllUpto(nodes: Nodes, edges: seq<Edge>, root: EntityId, bound: nat, n: nat, s: Search, from: seq<Source>, first: nat, place: nat, current: EntityId, depth: nat)
      returns (from': seq<Source>)
    requires Keyed(nodes) && n <= |edges| && Upto(nodes, edges, root, bound, s, from, first, Source(place, 0)) && place <= |s.found|
    requires current == IdAt(root, s.found, place) && depth == DepthAt(s.found, place) < bound
    ensures
      var r := VisitAll(nodes, edges[..n], current, depth, s);
      && Upto(nodes, edges, root, bound, r, from', first, Source(place, n)) && place <= |r.found|
      && current == IdAt(root, r.found, place) && depth == DepthAt(r.found, place)
  {
    from' := from;
    if n > 0 {
      from' := VisitAllUpto(nodes, edges, root, bound, n - 1, s, from, first, place, current, depth);
      assert edges[..n][..n - 1] == edges[..n - 1];
      var before := VisitAll(nodes, edges[..n - 1], current, depth, s);
      from' := VisitUpto(nodes, edges, root, bound, before, from', first, Source(place, n - 1), current, depth);
    }
  }

  lemma {:induction false} PopUpto(nodes: Nodes, edges: seq<Edge>, root: EntityId, bound: nat, s: Search, from: seq<Source>, h: nat)
    requires Upto(nodes, edges, root, bound, s, from, h, Source(h, 0)) && s.frontier != []
    ensures h <= |s.found| && s.frontier[0] == Hop(IdAt(root, s.found, h), DepthAt(s.found, h))
    ensures Upto(nodes, edges, root, bound, s.(frontier := s.frontier[1..]), from, h + 1, Source(h, 0))
  {
    assert s.frontier[0] == Hop(IdAt(root, s.found, h + 0), DepthAt(s.found, h + 0));
    assert forall k :: 0 <= k < |s.frontier| - 1 ==> s.frontier[1..][k] == s.frontier[k + 1];
  }

  /** The place is done with, once all edges are scanned or if it is at the bound. */
  lemma {:induction false} NextPlace(nodes: Nodes, edges: seq<Edge>, root: EntityId, bound: nat, s: Search, from: seq<Source>, h: nat, scanned: nat)
    requires Upto(nodes, edges, root, bound, s, from, h + 1, Source(h, scanned)) && h <= |s.found|
    requires scanned == |edges| || DepthAt(s.found, h) >= bound
    ensures Upto(nodes, edges, root, bound, s, from, h + 1, Source(h + 1, 0))
  {
    SourcedLater(edges, root, bound, s.found, from, Source(h, scanned), Source(h + 1, 0));
  }

  lemma {:induction false} AdvanceUpto(nodes: Nodes, edges: seq<Edge>, root: EntityId, bound: nat, s: Search, from: seq<Source>, h: nat) returns (from': seq<Source>)
    requires Keyed(nodes) && Upto(nodes, edges, root, bound, s, from, h, Source(h, 0)) && s.frontier != []
    ensures Upto(nodes, edges, root, bound, Advance(nodes, edges, bound, s), from', h + 1, Source(h + 1, 0))
  {
    var Hop(current, depth) := s.frontier[0];
    var rest := s.(frontier := s.frontier[1..]);
    PopUpto(nodes, edges, root, bound, s, from, h);
    if depth >= bound {
      from' := from;
      NextPlace(nodes, edges, root, bound, rest, from, h, 0);
    } else {
      from' := VisitAllUpto(nodes, edges, root, bound, |edges|, rest, from, h + 1, h, current, depth);
      assert edges[..|edges|] == edges;
      NextPlace(nodes, edges, root, bound, Advance(nodes, edges, bound, s), from', h, |edges|);
    }
  }

  lemma {:induction false} ExploreUpto(nodes: Nodes, edges: seq<Edge>, root: EntityId, bound: nat, s: Search, from: seq<Source>, h: nat)
      returns (from': seq<Source>, end: nat)
    requires Keyed(nodes) && Upto(nodes, edges, root, bound, s, from, h, Source(h, 0))
    ensures
      var r := Explore(nodes, edges, bound, s);
      Upto(nodes, edges, root, bound, r, from', end, Source(end, 0)) && r.frontier == []
    decreases Work(nodes, s)
  {
    from', end := from, h;
    if s.frontier != [] {
      from' := AdvanceUpto(nodes, edges, root, bound, s, from, h);
      AdvanceWork(nodes, edges, bound, s);
      from', end := ExploreUpto(nodes, edges, root, bound, Advance(nodes, edges, bound, s), from', h + 1);
    }
  }

  lemma {:induction false} KnownOnce(root: EntityId, s: Search, from: seq<Source>, t: Source, i: nat)
    requires VisitedOnce(root, s) && i < |s.found| && |from| == |s.found| && KnownAt(s.found, from, t, s.found[i].entityId)
    ensures !Before(t, from[i])
  {
    var j :| 0 <= j < |s.found| && j < |from| && s.found[j].entityId == s.found[i].entityId && !Before(t, from[j]);
    assert j == i;
  }

  lemma {:induction false} EntryIsFirst(nodes: Nodes, edges: seq<Edge>, root: EntityId, bound: nat, s: Search, from: seq<Source>, i: nat)
    requires VisitedOnce(root, s) && |from| == |s.found| && Scanned(nodes, edges, root, bound, s.found, from, Source(|s.found| + 1, 0))
    requires i < |s.found| && s.found[i].entityId in nodes
    ensures FoundFirst(edges, root, bound, s.found, i, from[i])
  {
    forall t | Leads(edges, root, bound, s.found, t) && edges[t.edge].toEntity == s.found[i].entityId
      ensures !Before(t, from[i])
    {
      KnownOnce(root, s, from, t, i);
    }
  }

  lemma {:induction false} EndIsInOrder(nodes: Nodes, edges: seq<Edge>, root: EntityId, bound: nat, s: Search, from: seq<Source>, end: nat)
    requires Upto(nodes, edges, root, bound, s, from, end, Source(end, 0)) && s.frontier == []
    requires forall i :: 0 <= i < |s.found| ==> s.found[i].entityId in nodes
    ensures InSearchOrder(edges, root, bound, s.found, from)
  {
    forall i | 0 <= i < |s.found|
      ensures FoundFirst(edges, root, bound, s.found, i, from[i])
    {
      EntryIsFirst(nodes, edges, root, bound, s, from, i);
    }
  }

  /**
   The dependency search lists each entry at its place: entries come in the order of their sources, the
   source of each being the earliest, by the place of the node and then by the place of the edge, that leads to it.
  */
  lemma {:induction false} SearchIsInOrder(nodes: Nodes, edges: seq<Edge>, root: EntityId, bound: nat) returns (from: seq<Source>)
    requires Keyed(nodes) && root in nodes
    ensures InSearchOrder(edges, root, bound, Bfs(nodes, edges, root, bound), from)
  {
    var end;
    assert DepthAt([], 0) == 0 && IdAt(root, [], 0) == root;
    from, end := ExploreUpto(nodes, edges, root, bound, DependencyBfs.Start(root), [], 0);
    SearchIsExact(nodes, edges, root, bound);
    forall i | 0 <= i < |Bfs(nodes, edges, root, bound)|
      ensures Bfs(nodes, edges, root, bound)[i].entityId in nodes
    {
      assert IsEntry(nodes, edges, root, Bfs(nodes, edges, root, bound)[i]);
    }
    EndIsInOrder(nodes, edges, root, bound, Explore(nodes, edges, bound, DependencyBfs.Start(root)), from, end);
  }

  // ----- There is no other list -----

  ghost predicate Ordered(nodes: Nodes, edges: seq<Edge>, root: EntityId, bound: nat, list: seq<DependencyNode>, from: seq<Source>) {
    IsNeighbourhood(nodes, edges, root, bound, list) && InSearchOrder(edges, root, bound, list, from)
  }

  /** Whatever a node at a place up to k leads to is listed. */
  lemma {:induction false} LedToIsListed(nodes: Nodes, edges: seq<Edge>, root: EntityId, bound: nat, list: seq<DependencyNode>, t: Source)
    requires IsNeighbourhood(nodes, edges, root, bound, list) && root in nodes && Leads(edges, root, bound, list, t)
    requires edges[t.edge].toEntity in nodes && edges[t.edge].toEntity != root
    ensures Listed(list, edges[t.edge].toEntity)
  {
    var id, depth, x := IdAt(root, list, t.place), DepthAt(list, t.place), edges[t.edge].toEntity;
    if t.place == 0 {
      assert Connects(nodes, edges, [root], root, root);
    } else {
      assert IsDistance(nodes, edges, root, list[t.place - 1].entityId, list[t.place - 1].depth);
    }
    assert Reaches(nodes, edges, root, id, depth);
    assert Linked(edges, id, x);
    Append(nodes, edges, root, id, x, depth);
    assert ReachesWithin(nodes, edges, root, x, bound);
  }

  /** What leads to anything not among the first k entries does not come before the source of the next. */
  lemma {:induction false} NextIsFirst(nodes: Nodes, edges: seq<Edge>, root: EntityId, bound: nat, list: seq<DependencyNode>, from: seq<Source>, k: nat, t: Source)
    requires Ordered(nodes, edges, root, bound, list, from) && root in nodes && k < |list| && Leads(edges, root, bound, list, t)
    requires edges[t.edge].toEntity in nodes && edges[t.edge].toEntity != root
    requires forall i :: 0 <= i < k ==> list[i].entityId != edges[t.edge].toEntity
    ensures !Before(t, from[k])
  {
    LedToIsListed(nodes, edges, root, bound, list, t);
    var j :| 0 <= j < |list| && list[j].entityId == edges[t.edge].toEntity;
    assert FoundFirst(edges, root, bound, list, j, from[j]);
    assert j == k || Before(from[k], from[j]);
  }

  lemma {:induction false} SamePrefixLeads(edges: seq<Edge>, root: EntityId, bound: nat, a: seq<DependencyNode>, b: seq<DependencyNode>, k: nat, t: Source)
    requires k <= |a| && k <= |b| && a[..k] == b[..k] && t.place <= k
    ensures Leads(edges, root, bound, a, t) <==> Leads(edges, root, bound, b, t)
    ensures IdAt(root, a, t.place) == IdAt(root, b, t.place) && DepthAt(a, t.place) == DepthAt(b, t.place)
  {
    if t.place > 0 {
      assert a[t.place - 1] == a[..k][t.place - 1] && b[t.place - 1] == b[..k][t.place - 1];
    }
  }

  /** The source of the next entry of one list is not before that of the other's. */
  lemma {:induction false} NotBefore(nodes: Nodes, edges: seq<Edge>, root: EntityId, bound: nat, a: seq<DependencyNode>, from: seq<Source>, b: seq<DependencyNode>, from': seq<Source>, k: nat)
    requires Ordered(nodes, edges, root, bound, a, from) && Ordered(nodes, edges, root, bound, b, from') && root in nodes
    requires k < |a| && k < |b| && a[..k] == b[..k]
    ensures !Before(from'[k], from[k])
  {
    assert FoundFrom(edges, root, bound, b, k, from'[k]) && IsEntry(nodes, edges, root, b[k]);
    SamePrefixLeads(edges, root, bound, a, b, k, from'[k]);
    assert Listed(b, b[k].entityId);
    forall i | 0 <= i < k
      ensures a[i].entityId != b[k].entityId
    {
      assert a[i] == a[..k][i] == b[..k][i] == b[i];
    }
    NextIsFirst(nodes, edges, root, bound, a, from, k, from'[k]);
  }

  lemma {:induction false} NextAgrees(nodes: Nodes, edges: seq<Edge>, root: EntityId, bound: nat, a: seq<DependencyNode>, from: seq<Source>, b: seq<DependencyNode>, from': seq<Source>, k: nat)
    requires Ordered(nodes, edges, root, bound, a, from) && Ordered(nodes, edges, root, bound, b, from') && root in nodes
    requires k < |a| && k < |b| && a[..k] == b[..k]
    ensures a[k] == b[k]
  {
    NotBefore(nodes, edges, root, bound, a, from, b, from', k);
    NotBefore(nodes, edges, root, bound, b, from', a, from, k);
    assert from[k] == from'[k];
    assert FoundFrom(edges, root, bound, a, k, from[k]) && FoundFrom(edges, root, bound, b, k, from[k]);
    SamePrefixLeads(edges, root, bound, a, b, k, from[k]);
    assert IsEntry(nodes, edges, root, a[k]) && IsEntry(nodes, edges, root, b[k]);
  }

  lemma {:induction false} PrefixMore(a: seq<DependencyNode>, b: seq<DependencyNode>, n: nat)
    requires n < |a| && n < |b| && a[..n] == b[..n] && a[n] == b[n]
    ensures a[..n + 1] == b[..n + 1]
  {
    assert a[..n + 1] == a[..n] + [a[n]] && b[..n + 1] == b[..n] + [b[n]];
  }

  lemma {:induction false} PrefixesAgree(nodes: Nodes, edges: seq<Edge>, root: EntityId, bound: nat, a: seq<DependencyNode>, from: seq<Source>, b: seq<DependencyNode>, from': seq<Source>, n: nat)
    requires Ordered(nodes, edges, root, bound, a, from) && Ordered(nodes, edges, root, bound, b, from') && root in nodes
    requires n <= |a| && n <= |b|
    ensures a[..n] == b[..n]
  {
    if n > 0 {
      PrefixesAgree(nodes, edges, root, bound, a, from, b, from', n - 1);
      NextAgrees(nodes, edges, root, bound, a, from, b, from', n - 1);
      PrefixMore(a, b, n - 1);
    }
  }

  lemma {:induction false} NextIsNew(a: seq<DependencyNode>, b: seq<DependencyNode>)
    requires |a| < |b| && a == b[..|a|] && forall i, j :: 0 <= i < j < |b| ==> b[i].entityId != b[j].entityId
    ensures Listed(b, b[|a|].entityId) && !Listed(a, b[|a|].entityId)
  {
    forall j | 0 <= j < |a|
      ensures a[j].entityId != b[|a|].entityId
    {
      assert a[j] == b[j];
    }
  }

  /** One list is not a proper prefix of another with the same ids. */
  lemma {:induction false} NotLonger(nodes: Nodes, edges: seq<Edge>, root: EntityId, bound: nat, a: seq<DependencyNode>, b: seq<DependencyNode>)
    requires IsNeighbourhood(nodes, edges, root, bound, a) && IsNeighbourhood(nodes, edges, root, bound, b)
    requires |a| <= |b| && a == b[..|a|]
    ensures |a| == |b|
  {
    if |a| < |b| {
      NextIsNew(a, b);
    }
  }

  /** A list is the result of the search if and only if it is the neighbourhood, in search order. */
  lemma {:induction false} SearchIsTheOnly(nodes: Nodes, edges: seq<Edge>, root: EntityId, bound: nat, list: seq<DependencyNode>)
    requires Keyed(nodes) && root in nodes
    ensures list == Bfs(nodes, edges, root, bound) <==> exists from :: Ordered(nodes, edges, root, bound, list, from)
  {
    var found := Bfs(nodes, edges, root, bound);
    var from' := SearchIsInOrder(nodes, edges, root, bound);
    SearchIsExact(nodes, edges, root, bound);
    assert Ordered(nodes, edges, root, bound, found, from');
    if from :| Ordered(nodes, edges, root, bound, list, from) {
      SameList(nodes, edges, root, bound, list, from, found, from');
    }
  }

  lemma {:induction false} SameList(nodes: Nodes, edges: seq<Edge>, root: EntityId, bound: nat, a: seq<DependencyNode>, from: seq<Source>, b: seq<DependencyNode>, from': seq<Source>)
    requires Ordered(nodes, edges, root, bound, a, from) && Ordered(nodes, edges, root, bound, b, from') && root in nodes
    ensures a == b
  {
    var n := if |a| < |b| then |a| else |b|;
    PrefixesAgree(nodes, edges, root, bound, a, from, b, from', n);
    assert a[..|a|] == a && b[..|b|] == b;
    if |a| <= |b| {
      NotLonger(nodes, edges, root, bound, a, b);
    } else {
      NotLonger(nodes, edges, root, bound, b, a);
    }
  }
}
