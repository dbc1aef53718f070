/** Shortest switch routes in an InfiniBand fabric, and the spine recorded for each pair of leaves. */
module FabricRouting {
  import opened Prelude
  import opened Sorting
  import opened FabricGraph
  import opened FabricLeast

  lemma BackStep(adj: Adjacency, src: Guid, prev: map<Guid, Option<Guid>>, dist: map<Guid, nat>, route: Routes, x: Guid)
    requires Routed(adj, src, prev, dist, route) && x in prev
    ensures x in route && x in dist
    ensures match prev[x]
            case None => route[x] == [x]
            case Some(y) => y in prev && y in dist && y in route && dist[y] < dist[x] && route[x] == route[y] + [x]
  {
  }

  lemma TrailGrows(trail: seq<Guid>, x: Guid)
    ensures Reversed(trail + [x]) == [x] + Reversed(trail)
    ensures forall a: seq<Guid> :: a + [x] + Reversed(trail) == a + Reversed(trail + [x])
  {
    assert Reversed(trail + [x]) == [x] + Reversed(trail);
    forall a: seq<Guid>
      ensures a + [x] + Reversed(trail) == a + Reversed(trail + [x])
    {
      assert a + [x] + Reversed(trail) == a + ([x] + Reversed(trail));
    }
  }

  /** Follows the predecessors back to the source and reverses the trail. */
  method BuildPath(adj: Adjacency, src: Guid, prev: map<Guid, Option<Guid>>, ghost dist: map<Guid, nat>,
                   ghost route: Routes, dst: Guid)
    returns (path: seq<Guid>)
    requires Routed(adj, src, prev, dist, route) && dst in prev
    ensures path == route[dst]
  {
    var trail, cur := [], Some(dst);
    while cur.Some?
      invariant cur.Some? ==> cur.value in prev && cur.value in route
      invariant cur.Some? ==> route[dst] == route[cur.value] + Reversed(trail)
      invariant cur.None? ==> route[dst] == Reversed(trail)
      decreases if cur.Some? then dist[cur.value] + 1 else 0
    {
      BackStep(adj, src, prev, dist, route, cur.value);
      TrailGrows(trail, cur.value);
      trail := trail + [cur.value];
      cur := prev[cur.value];
    }
    path := Reversed(trail);
  }

  /** The destination is a new neighbour of u, so the route through u is the answer. */
  method RouteThrough(adj: Adjacency, src: Guid, dst: Guid, u: Guid, prev: map<Guid, Option<Guid>>,
                      ghost dist: map<Guid, nat>, ghost queue: seq<Guid>, ghost d: nat, ghost seen: seq<Guid>,
                      ghost route: Routes)
    returns (path: seq<Guid>)
    requires Searching(adj, src, dst, prev, dist, queue, Some(u), d)
    requires Least(adj, src, prev, dist, queue, Some(u), seen, route) && dst in Neighbours(adj, u)
    ensures IsFirstShortest(adj, path, src, dst)
  {
    ghost var mine := route[u] + [dst];
    ghost var dist', route' := dist[dst := d + 1], route[dst := mine];
    var prev' := prev[dst := Some(u)];
    assert IsFirstShortest(adj, mine, src, dst) && Routed(adj, src, prev', dist', route') by {
      ThroughIsFirst(adj, src, dst, prev, dist, queue, u, d, seen, route);
      RoutesGrow(adj, src, prev, dist, route, u, dst);
    }
    path := BuildPath(adj, src, prev', dist', route', dst);
  }

  // The first i neighbours of u have been visited; known switches keep their distance.
  ghost predicate Midway(adj: Adjacency, src: Guid, dst: Guid, u: Guid, seen: seq<Guid>, d: nat,
                         prev: map<Guid, Option<Guid>>, dist: map<Guid, nat>, queue: seq<Guid>, route: Routes)
  {
    && Searching(adj, src, dst, prev, dist, queue, Some(u), d)
    && Least(adj, src, prev, dist, queue, Some(u), seen, route) && NearUpTo(dist, seen, |seen|, d)
  }

  lemma VisitKnown(adj: Adjacency, src: Guid, dst: Guid, u: Guid, v: Guid, seen: seq<Guid>, d: nat,
                   prev: map<Guid, Option<Guid>>, dist: map<Guid, nat>, queue: seq<Guid>, route: Routes)
    requires Midway(adj, src, dst, u, seen, d, prev, dist, queue, route) && v in prev
    ensures Midway(adj, src, dst, u, seen + [v], d, prev, dist, queue, route)
  {
    KnownIsNear(adj, src, dst, prev, dist, queue, u, d, v);
    SeenGrows(adj, src, prev, dist, queue, u, seen, route, v);
  }

  lemma VisitNew(adj: Adjacency, src: Guid, dst: Guid, u: Guid, v: Guid, seen: seq<Guid>, d: nat,
                 prev: map<Guid, Option<Guid>>, dist: map<Guid, nat>, queue: seq<Guid>, route: Routes)
    requires Midway(adj, src, dst, u, seen, d, prev, dist, queue, route)
    requires v !in prev && v != dst && v in Neighbours(adj, u) && forall x :: x in seen ==> x < v
    ensures Midway(adj, src, dst, u, seen + [v], d, prev[v := Some(u)], dist[v := d + 1], queue + [v],
                   route[v := route[u] + [v]])
  {
    var prev', dist', queue', route' := prev[v := Some(u)], dist[v := d + 1], queue + [v], route[v := route[u] + [v]];
    assert Searching(adj, src, dst, prev', dist', queue', Some(u), d) by {
      Discover(adj, src, dst, prev, dist, queue, u, d, v);
    }
    assert Least(adj, src, prev', dist', queue', Some(u), seen + [v], route') by {
      NewRouteLeast(adj, src, dst, prev, dist, queue, u, d, seen, route, v);
      DiscoverLeast(adj, src, prev, dist, queue, u, d, seen, route, v);
    }
    NearGrows(dist, seen, d, v);
  }

  lemma NearGrows<T>(dist: map<T, nat>, seen: seq<T>, d: nat, v: T)
    requires NearUpTo(dist, seen, |seen|, d)
    ensures NearUpTo(dist[v := d + 1], seen + [v], |seen| + 1, d)
  {
  }

  /** Looks at one neighbour of u; a new one is queued, or ends the search when it is the destination. */
  method Visit(adj: Adjacency, src: Guid, dst: Guid, u: Guid, v: Guid, prev0: map<Guid, Option<Guid>>,
               ghost dist0: map<Guid, nat>, queue0: seq<Guid>, ghost d: nat, ghost seen: seq<Guid>,
               ghost route0: Routes)
    returns (path: Option<seq<Guid>>, prev: map<Guid, Option<Guid>>, ghost dist: map<Guid, nat>, queue: seq<Guid>,
             ghost route: Routes)
    requires Midway(adj, src, dst, u, seen, d, prev0, dist0, queue0, route0)
    requires v in Neighbours(adj, u) && forall x :: x in seen ==> x < v
    ensures path.Some? ==> IsFirstShortest(adj, path.value, src, dst)
    ensures path.None? ==> Midway(adj, src, dst, u, seen + [v], d, prev, dist, queue, route)
    ensures path.None? ==> Grown(prev0, queue0, prev, queue)
  {
    prev, dist, queue, route, path := prev0, dist0, queue0, route0, None;
    if v in prev {
      VisitKnown(adj, src, dst, u, v, seen, d, prev, dist, queue, route);
      return;
    }
    if v == dst {
      var found := RouteThrough(adj, src, dst, u, prev, dist, queue, d, seen, route);
      path := Some(found);
      return;
    }
    VisitNew(adj, src, dst, u, v, seen, d, prev, dist, queue, route);
    prev, dist, queue, route := prev[v := Some(u)], dist[v := d + 1], queue + [v], route[v := route[u] + [v]];
  }

  lemma NextInOrder(sorted: seq<Guid>, i: nat)
    requires Ascending(sorted) && i < |sorted|
    ensures sorted[i] in ToSet(sorted) && sorted[..i + 1] == sorted[..i] + [sorted[i]]
    ensures forall x :: x in sorted[..i] ==> x < sorted[i]
  {
  }

  /** Visits the i-th neighbour in ascending order. */
  method VisitNext(adj: Adjacency, src: Guid, dst: Guid, u: Guid, sorted: seq<Guid>, i: nat,
                   ghost first: map<Guid, Option<Guid>>, ghost line: seq<Guid>, prev0: map<Guid, Option<Guid>>,
                   ghost dist0: map<Guid, nat>, queue0: seq<Guid>, ghost d: nat, ghost route0: Routes)
    returns (path: Option<seq<Guid>>, prev: map<Guid, Option<Guid>>, ghost dist: map<Guid, nat>, queue: seq<Guid>,
             ghost route: Routes)
    requires Grown(first, line, prev0, queue0)
    requires Ascending(sorted) && ToSet(sorted) == Neighbours(adj, u) && i < |sorted|
    requires Midway(adj, src, dst, u, sorted[..i], d, prev0, dist0, queue0, route0)
    ensures path.Some? ==> IsFirstShortest(adj, path.value, src, dst)
    ensures path.None? ==> Midway(adj, src, dst, u, sorted[..i + 1], d, prev, dist, queue, route)
    ensures path.None? ==> Grown(first, line, prev, queue)
  {
    NextInOrder(sorted, i);
    path, prev, dist, queue, route := Visit(adj, src, dst, u, sorted[i], prev0, dist0, queue0, d, sorted[..i], route0);
    GrownChains(first, line, prev0, queue0, prev, queue);
  }

  lemma GrownChains(a: map<Guid, Option<Guid>>, p: seq<Guid>, b: map<Guid, Option<Guid>>, q: seq<Guid>,
                    c: map<Guid, Option<Guid>>, r: seq<Guid>)
    requires Grown(a, p, b, q)
    ensures Grown(b, q, c, r) ==> Grown(a, p, c, r)
  {
  }

  lemma BeginExpansion(adj: Adjacency, src: Guid, dst: Guid, u: Guid, sorted: seq<Guid>, d: nat,
                       prev: map<Guid, Option<Guid>>, dist: map<Guid, nat>, queue: seq<Guid>, route: Routes)
    requires Searching(adj, src, dst, prev, dist, queue, Some(u), d)
    requires Least(adj, src, prev, dist, queue, Some(u), [], route)
    ensures Midway(adj, src, dst, u, sorted[..0], d, prev, dist, queue, route)
  {
    assert sorted[..0] == [];
  }

  /** Once all its neighbours have been visited, u is expanded. */
  lemma EndExpansion(adj: Adjacency, src: Guid, dst: Guid, u: Guid, sorted: seq<Guid>, d: nat,
                     prev: map<Guid, Option<Guid>>, dist: map<Guid, nat>, queue: seq<Guid>, route: Routes)
    requires Midway(adj, src, dst, u, sorted[..|sorted|], d, prev, dist, queue, route)
    requires ToSet(sorted) == Neighbours(adj, u)
    ensures Searching(adj, src, dst, prev, dist, queue, None, d) && Least(adj, src, prev, dist, queue, None, [], route)
  {
    assert sorted[..|sorted|] == sorted;
    ExpansionEnds(adj, src, prev, dist, queue, u, sorted, route);
    AllNear(adj, dist, u, sorted, d);
  }

  lemma AllNear(adj: Adjacency, dist: map<Guid, nat>, u: Guid, sorted: seq<Guid>, d: nat)
    requires NearUpTo(dist, sorted, |sorted|, d) && ToSet(sorted) == Neighbours(adj, u) && u in dist && dist[u] == d
    ensures Expanded(adj, dist, u)
  {
    forall x | x in Neighbours(adj, u)
      ensures x in dist && dist[x] <= dist[u] + 1
    {
      assert x in ToSet(sorted);
    }
  }

  /** Discovers the neighbours of u in ascending order; stops at the destination. */
  method Expand(adj: Adjacency, src: Guid, dst: Guid, u: Guid, prev0: map<Guid, Option<Guid>>,
                ghost dist0: map<Guid, nat>, queue0: seq<Guid>, ghost d: nat, ghost route0: Routes)
    returns (path: Option<seq<Guid>>, prev: map<Guid, Option<Guid>>, ghost dist: map<Guid, nat>, queue: seq<Guid>,
             ghost route: Routes)
    requires Searching(adj, src, dst, prev0, dist0, queue0, Some(u), d)
    requires Least(adj, src, prev0, dist0, queue0, Some(u), [], route0)
    ensures path.Some? ==> IsFirstShortest(adj, path.value, src, dst)
    ensures path.None? ==> Searching(adj, src, dst, prev, dist, queue, None, d)
    ensures path.None? ==> Least(adj, src, prev, dist, queue, None, [], route) && Grown(prev0, queue0, prev, queue)
  {
    prev, dist, queue, route, path := prev0, dist0, queue0, route0, None;
    var sorted := Sorted(Neighbours(adj, u));
    BeginExpansion(adj, src, dst, u, sorted, d, prev, dist, queue, route);
    var i := 0;
    while i < |sorted|
      invariant 0 <= i <= |sorted| && path == None && Grown(prev0, queue0, prev, queue)
      invariant Midway(adj, src, dst, u, sorted[..i], d, prev, dist, queue, route)
    {
      path, prev, dist, queue, route :=
        VisitNext(adj, src, dst, u, sorted, i, prev0, queue0, prev, dist, queue, d, route);
      if path.Some? {
        return;
      }
      i := i + 1;
    }
    EndExpansion(adj, src, dst, u, sorted, d, prev, dist, queue, route);
  }

  lemma TakeFirst(adj: Adjacency, src: Guid, dst: Guid, prev: map<Guid, Option<Guid>>, dist: map<Guid, nat>,
                  queue: seq<Guid>, d: nat)
    requires Searching(adj, src, dst, prev, dist, queue, None, d) && queue != []
    ensures Searching(adj, src, dst, prev, dist, queue[1..], Some(queue[0]), dist[queue[0]])
  {
  }

  lemma Start(adj: Adjacency, src: Guid, dst: Guid)
    requires src != dst
    ensures Searching(adj, src, dst, map[src := None], map[src := 0], [src], None, 0)
  {
  }

  /**
   Breadth-first search over the switch graph: of the shortest walks the first in dictionary order, and
   the empty list exactly when the destination is unreachable.
   */
  method ShortestPath(adj: Adjacency, src: Guid, dst: Guid) returns (path: seq<Guid>)
    ensures path == [] <==> !Reachable(adj, src, dst)
    ensures path != [] ==> IsFirstShortest(adj, path, src, dst)
  {
    if src == dst {
      OnlyItself(adj, src);
      return [src];
    }
    var prev: map<Guid, Option<Guid>> := map[src := None];
    ghost var dist: map<Guid, nat> := map[src := 0];
    ghost var route: Routes := map[src := [src]];
    ghost var d := 0;
    var queue := [src];
    Start(adj, src, dst);
    StartLeast(adj, src);
    while queue != []
      invariant Searching(adj, src, dst, prev, dist, queue, None, d)
      invariant Least(adj, src, prev, dist, queue, None, [], route)
      decreases |Universe(adj) + {src} - prev.Keys|, |queue|
    {
      var u := queue[0];
      TakeFirst(adj, src, dst, prev, dist, queue, d);
      TakeLeast(adj, src, prev, dist, queue, route);
      d := dist[u];
      var found;
      ghost var before := prev.Keys;
      found, prev, dist, queue, route := Expand(adj, src, dst, u, prev, dist, queue[1..], d, route);
      if found.Some? {
        return found.value;
      }
      Progress(Universe(adj) + {src}, before, prev.Keys);
    }
    forall q | IsPath(adj, q, src, dst)
      ensures false
    {
      ClosedMeansUnreachable(adj, src, dist, q, dst);
    }
    path := [];
  }

  lemma OnlyItself(adj: Adjacency, src: Guid)
    ensures IsFirstShortest(adj, [src], src, src)
  {
    assert IsPath(adj, [src], src, src);
    forall q | IsPath(adj, q, src, src) && |q| == 1
      ensures q == [src]
    {
    }
  }

  lemma Progress(all: set<Guid>, before: set<Guid>, after: set<Guid>)
    requires before <= after <= all
    ensures |all - after| < |all - before| || after == before
  {
    if after != before {
      assert all - before == (all - after) + (after - before);
      assert after == before + (after - before);
    }
  }

  // ---------- the spine of each leaf pair ----------

  ghost predicate FirstAt(p: seq<Guid>, spines: set<Guid>, k: int) {
    0 <= k < |p| && p[k] in spines && forall j :: 0 <= j < k ==> p[j] !in spines
  }

  function FirstSpine(p: seq<Guid>, spines: set<Guid>): (s: Option<Guid>)
    ensures s.Some? ==> s.value in spines && exists k :: FirstAt(p, spines, k) && p[k] == s.value
    ensures s.None? ==> forall x :: x in p ==> x !in spines
  {
    if p == [] then None else if p[0] in spines then Some(p[0]) else FirstSpine(p[1..], spines)
  }

  // p is what the shortest-path query between the two leaves answers.
  ghost predicate RouteBetween(adj: Adjacency, p: seq<Guid>, a: Guid, b: Guid) {
    (p == [] <==> !Reachable(adj, a, b)) && (p != [] ==> IsFirstShortest(adj, p, a, b))
  }

  type Pair = (Guid, Guid)

  // The recorded spine of the pair, if any, is the first one on the given shortest route.
  ghost predicate Recorded(adj: Adjacency, spines: set<Guid>, route: map<Pair, Guid>, pair: Pair, p: seq<Guid>) {
    && RouteBetween(adj, p, pair.0, pair.1)
    && FirstSpine(p, spines) == if pair in route then Some(route[pair]) else None
  }

  // `paths` holds the route consulted for every pair handled so far.
  ghost predicate AllRecorded(adj: Adjacency, spines: set<Guid>, route: map<Pair, Guid>, paths: map<Pair, seq<Guid>>) {
    route.Keys <= paths.Keys && forall pair :: pair in paths ==> Recorded(adj, spines, route, pair, paths[pair])
  }

  lemma RecordOne(adj: Adjacency, spines: set<Guid>, route: map<Pair, Guid>, paths: map<Pair, seq<Guid>>,
                  pair: Pair, p: seq<Guid>)
    requires AllRecorded(adj, spines, route, paths) && pair !in paths && RouteBetween(adj, p, pair.0, pair.1)
    ensures var s := FirstSpine(p, spines);
            AllRecorded(adj, spines, if s.Some? then route[pair := s.value] else route, paths[pair := p])
  {
  }

  // Every pair of positions before row i, column j has been handled ...
  ghost predicate HandledBefore(sorted: seq<Guid>, paths: map<Pair, seq<Guid>>, i: nat, j: nat) {
    forall k, l :: 0 <= k < l < |sorted| && (k < i || (k == i && l < j)) ==> (sorted[k], sorted[l]) in paths
  }

  // ... and nothing from that position on.
  ghost predicate NothingAfter(sorted: seq<Guid>, paths: map<Pair, seq<Guid>>, i: nat, j: nat) {
    forall pair :: pair in paths && i < |sorted| ==>
      pair.0 < sorted[i] || (pair.0 == sorted[i] && (j < |sorted| ==> pair.1 < sorted[j]))
  }

  ghost predicate AmongLeaves(leaves: set<Guid>, paths: map<Pair, seq<Guid>>) {
    forall pair :: pair in paths ==> pair.0 in leaves && pair.1 in leaves && pair.0 < pair.1
  }

  ghost predicate Handled(leaves: set<Guid>, sorted: seq<Guid>, paths: map<Pair, seq<Guid>>, i: nat, j: nat) {
    HandledBefore(sorted, paths, i, j) && NothingAfter(sorted, paths, i, j) && AmongLeaves(leaves, paths)
  }

  lemma HandleOne(leaves: set<Guid>, sorted: seq<Guid>, paths: map<Pair, seq<Guid>>, i: nat, j: nat, p: seq<Guid>)
    requires Ascending(sorted) && ToSet(sorted) == leaves && i < j < |sorted| && Handled(leaves, sorted, paths, i, j)
    ensures (sorted[i], sorted[j]) !in paths
    ensures Handled(leaves, sorted, paths[(sorted[i], sorted[j]) := p], i, j + 1)
  {
  }

  lemma NextRow(leaves: set<Guid>, sorted: seq<Guid>, paths: map<Pair, seq<Guid>>, i: nat)
    requires Ascending(sorted) && i < |sorted| && Handled(leaves, sorted, paths, i, |sorted|)
    ensures Handled(leaves, sorted, paths, i + 1, i + 2)
  {
  }

  lemma AllPairs(leaves: set<Guid>, sorted: seq<Guid>, paths: map<Pair, seq<Guid>>)
    requires Ascending(sorted) && ToSet(sorted) == leaves && HandledBefore(sorted, paths, |sorted|, |sorted| + 1)
    ensures forall pair: Pair :: pair.0 in leaves && pair.1 in leaves && pair.0 < pair.1 ==> pair in paths
  {
  }

  function Position(sorted: seq<Guid>, x: Guid): (k: nat)
    requires x in ToSet(sorted)
    ensures k < |sorted| && sorted[k] == x
  {
    if sorted[0] == x then 0 else 1 + Position(sorted[1..], x)
  }

  /**
   One spine per pair of leaves, the first on a shortest route between them; a pair gets none
   exactly when that route has no spine. The default is the smallest spine.
   */
  method ToTopology(switches: set<Guid>, leaves: set<Guid>, adj: Adjacency)
    returns (route: map<Pair, Guid>, default: Option<Guid>, ghost paths: map<Pair, seq<Guid>>)
    ensures AllRecorded(adj, switches - leaves, route, paths)
    ensures forall pair: Pair :: pair in paths <==> pair.0 in leaves && pair.1 in leaves && pair.0 < pair.1
    ensures default.None? <==> switches <= leaves
    ensures default.Some? ==> default.value in switches - leaves && forall s :: s in switches - leaves ==>
        default.value <= s
  {
    var spines := switches - leaves;
    var sorted := Sorted(leaves);
    route, paths := map[], map[];
    for i := 0 to |sorted|
      invariant AllRecorded(adj, spines, route, paths) && Handled(leaves, sorted, paths, i, i + 1)
    {
      for j := i + 1 to |sorted|
        invariant AllRecorded(adj, spines, route, paths) && Handled(leaves, sorted, paths, i, j)
      {
        var pair := (sorted[i], sorted[j]);
        var p := ShortestPath(adj, sorted[i], sorted[j]);
        HandleOne(leaves, sorted, paths, i, j, p);
        RecordOne(adj, spines, route, paths, pair, p);
        var spine := FirstSpine(p, spines);
        if spine.Some? {
          route := route[pair := spine.value];
        }
        paths := paths[pair := p];
      }
      NextRow(leaves, sorted, paths, i);
    }
    AllPairs(leaves, sorted, paths);
    default := SmallestSpine(switches, leaves);
  }

  method SmallestSpine(switches: set<Guid>, leaves: set<Guid>) returns (default: Option<Guid>)
    ensures default.None? <==> switches <= leaves
    ensures default.Some? ==> default.value in switches - leaves && forall s :: s in switches - leaves ==>
        default.value <= s
  {
    var spines := switches - leaves;
    if |spines| == 0 {
      assert spines == {};
      assert forall x <- switches :: x in spines || x in leaves;
      return None;
    }
    var low := Smallest(spines);
    default := Some(low);
  }
}
