/**
 Which of several shortest routes the search finds: neighbours are taken in ascending order from a queue, so
 switches are discovered, level by level, in the dictionary order of their routes.
 */
module FabricLeast {
  import opened Prelude
  import opened FabricGraph
  import opened LexOrder

  // The route by which each switch was discovered.
  type Routes = map<Guid, seq<Guid>>

  ghost predicate Routed(adj: Adjacency, src: Guid, prev: map<Guid, Option<Guid>>, dist: map<Guid, nat>,
                         route: Routes) {
    && route.Keys == dist.Keys && Tree(adj, src, prev, dist) && route[src] == [src]
    && (forall x :: x in route ==> IsPath(adj, route[x], src, x) && |route[x]| == dist[x] + 1)
    && forall x :: x in prev && x != src ==> route[x] == route[prev[x].value] + [x]
  }

  // No walk to x of the same length comes before w.
  ghost predicate LeastTo(adj: Adjacency, src: Guid, x: Guid, w: seq<Guid>) {
    forall q :: IsPath(adj, q, src, x) && |q| == |w| ==> NotAfter(w, q)
  }

  // The route without its last switch.
  function Stem(w: seq<Guid>): seq<Guid> { if w == [] then [] else w[..|w| - 1] }

  // Switches queued at one distance are in the order of their routes; those one step farther come from earlier ones.
  ghost predicate InOrder(dist: map<Guid, nat>, route: Routes, queue: seq<Guid>) {
    && (forall x :: x in queue ==> x in dist && x in route)
    && (forall i, j :: 0 <= i < j < |queue| && dist[queue[i]] == dist[queue[j]] ==>
          Less(route[queue[i]], route[queue[j]]))
    && forall x, z :: x in queue && z in queue && dist[z] == dist[x] + 1 ==> Less(Stem(route[z]), route[x])
  }

  // The switch u being expanded comes before the queue; its neighbours discovered so far are among `seen`.
  ghost predicate FirstInLine(dist: map<Guid, nat>, route: Routes, queue: seq<Guid>, u: Guid, seen: seq<Guid>) {
    && u in dist && u in route
    && forall x :: x in queue && x in dist && x in route ==>
         && (dist[x] == dist[u] ==> Less(route[u], route[x]))
         && (dist[x] == dist[u] + 1 ==> Less(Stem(route[x]), route[u]) || (Stem(route[x]) == route[u] && x in seen))
  }

  ghost predicate Least(adj: Adjacency, src: Guid, prev: map<Guid, Option<Guid>>, dist: map<Guid, nat>,
                        queue: seq<Guid>, current: Option<Guid>, seen: seq<Guid>, route: Routes) {
    && Routed(adj, src, prev, dist, route) && InOrder(dist, route, queue)
    && (forall x :: x in route ==> LeastTo(adj, src, x, route[x]))
    && (current.Some? ==> FirstInLine(dist, route, queue, current.value, seen))
  }

  // A walk of d links ends at a switch at distance d that is being expanded or queued, if it leads to a new one.
  lemma LastButOne(adj: Adjacency, src: Guid, dst: Guid, prev: map<Guid, Option<Guid>>, dist: map<Guid, nat>,
                   queue: seq<Guid>, u: Guid, d: nat, r: seq<Guid>, y: Guid, v: Guid)
    requires Searching(adj, src, dst, prev, dist, queue, Some(u), d) && IsPath(adj, r, src, y) && |r| == d + 1
    requires v !in dist && v in Neighbours(adj, y)
    ensures y in dist && dist[y] == d && (y == u || y in queue)
  {
    forall z | z in dist && dist[z] < d
      ensures Expanded(adj, dist, z)
    {
      assert z !in queue;
    }
    ShortWalksDiscovered(adj, src, dist, d, r, y);
    assert !Expanded(adj, dist, y);
  }

  lemma WalkNotBefore(adj: Adjacency, src: Guid, dst: Guid, prev: map<Guid, Option<Guid>>, dist: map<Guid, nat>,
                      queue: seq<Guid>, u: Guid, d: nat, seen: seq<Guid>, route: Routes, r: seq<Guid>, y: Guid, v: Guid)
    requires Searching(adj, src, dst, prev, dist, queue, Some(u), d)
    requires Routed(adj, src, prev, dist, route) && FirstInLine(dist, route, queue, u, seen)
    requires forall x :: x in route ==> LeastTo(adj, src, x, route[x])
    requires v !in dist && v in Neighbours(adj, y) && IsPath(adj, r, src, y) && |r| == d + 1
    ensures NotAfter(route[u] + [v], r + [v])
  {
    LastButOne(adj, src, dst, prev, dist, queue, u, d, r, y, v);
    assert LeastTo(adj, src, y, route[y]);
    ThroughEarlier(route[u], route[y], r, v);
  }

  lemma SplitWalk(adj: Adjacency, q: seq<Guid>, src: Guid, v: Guid)
    requires IsPath(adj, q, src, v) && |q| >= 2
    ensures var r, y := q[..|q| - 1], q[|q| - 2];
            q == r + [v] && IsPath(adj, r, src, y) && v in Neighbours(adj, y)
  {
    assert q[|q| - 2 + 1] in Neighbours(adj, q[|q| - 2]);
  }

  /** The least walk of its length to a new neighbour goes through the switch being expanded. */
  lemma NewRouteLeast(adj: Adjacency, src: Guid, dst: Guid, prev: map<Guid, Option<Guid>>, dist: map<Guid, nat>,
                      queue: seq<Guid>, u: Guid, d: nat, seen: seq<Guid>, route: Routes, v: Guid)
    requires Searching(adj, src, dst, prev, dist, queue, Some(u), d)
    requires Routed(adj, src, prev, dist, route) && FirstInLine(dist, route, queue, u, seen)
    requires forall x :: x in route ==> LeastTo(adj, src, x, route[x])
    requires v !in dist
    ensures LeastTo(adj, src, v, route[u] + [v])
  {
    forall q | IsPath(adj, q, src, v) && |q| == |route[u] + [v]|
      ensures NotAfter(route[u] + [v], q)
    {
      SplitWalk(adj, q, src, v);
      WalkNotBefore(adj, src, dst, prev, dist, queue, u, d, seen, route, q[..|q| - 1], q[|q| - 2], v);
    }
  }

  lemma ThroughEarlier(a: seq<Guid>, b: seq<Guid>, r: seq<Guid>, v: Guid)
    requires NotAfter(a, b) && NotAfter(b, r)
    ensures NotAfter(a + [v], r + [v])
  {
    if a != b {
      LessChains(a, b, r);
    }
    if a != r {
      LessExtends(a, r, v, v);
    }
  }

  lemma RoutesGrow(adj: Adjacency, src: Guid, prev: map<Guid, Option<Guid>>, dist: map<Guid, nat>, route: Routes,
                   u: Guid, v: Guid)
    requires Routed(adj, src, prev, dist, route) && u in dist && v !in prev && v in Neighbours(adj, u)
    ensures Routed(adj, src, prev[v := Some(u)], dist[v := dist[u] + 1], route[v := route[u] + [v]])
  {
    TreeGrows(adj, src, prev, dist, u, v);
    assert IsPath(adj, route[u] + [v], src, v);
  }

  /** A newly queued neighbour comes after everything queued before it. */
  lemma QueueGrows(dist: map<Guid, nat>, route: Routes, queue: seq<Guid>, u: Guid, d: nat, seen: seq<Guid>, v: Guid)
    requires InOrder(dist, route, queue) && FirstInLine(dist, route, queue, u, seen) && dist[u] == d
    requires Ordered(dist, queue, d) && v !in dist && v !in route && forall x :: x in seen ==> x < v
    requires forall x :: x in route ==> route[x] != [] && route[x][|route[x]| - 1] == x
    ensures InOrder(dist[v := d + 1], route[v := route[u] + [v]], queue + [v])
    ensures FirstInLine(dist[v := d + 1], route[v := route[u] + [v]], queue + [v], u, seen + [v])
  {
    var mine := route[u] + [v];
    assert Stem(mine) == route[u];
    forall x | x in queue && dist[x] == d + 1
      ensures Less(route[x], mine)
    {
      BeforeNew(route[x], route[u], seen, x, v);
    }
  }

  lemma BeforeNew(w: seq<Guid>, a: seq<Guid>, seen: seq<Guid>, x: Guid, v: Guid)
    requires Less(Stem(w), a) || (Stem(w) == a && x in seen)
    requires w != [] && w[|w| - 1] == x && (forall y :: y in seen ==> y < v)
    ensures Less(w, a + [v])
  {
    assert w == Stem(w) + [x];
    if Less(Stem(w), a) {
      LessExtends(Stem(w), a, x, v);
    } else {
      LastDecides(a, x, v);
    }
  }

  lemma DiscoverLeast(adj: Adjacency, src: Guid, prev: map<Guid, Option<Guid>>, dist: map<Guid, nat>,
                      queue: seq<Guid>, u: Guid, d: nat, seen: seq<Guid>, route: Routes, v: Guid)
    requires Least(adj, src, prev, dist, queue, Some(u), seen, route) && Ordered(dist, queue, d) && dist[u] == d
    requires v !in prev && v in Neighbours(adj, u) && LeastTo(adj, src, v, route[u] + [v])
    requires forall x :: x in seen ==> x < v
    ensures Least(adj, src, prev[v := Some(u)], dist[v := d + 1], queue + [v], Some(u), seen + [v],
                  route[v := route[u] + [v]])
  {
    RoutesGrow(adj, src, prev, dist, route, u, v);
    QueueGrows(dist, route, queue, u, d, seen, v);
  }

  lemma SeenGrows(adj: Adjacency, src: Guid, prev: map<Guid, Option<Guid>>, dist: map<Guid, nat>, queue: seq<Guid>,
                  u: Guid, seen: seq<Guid>, route: Routes, v: Guid)
    requires Least(adj, src, prev, dist, queue, Some(u), seen, route)
    ensures Least(adj, src, prev, dist, queue, Some(u), seen + [v], route)
  {
  }

  lemma ExpansionEnds(adj: Adjacency, src: Guid, prev: map<Guid, Option<Guid>>, dist: map<Guid, nat>,
                      queue: seq<Guid>, u: Guid, seen: seq<Guid>, route: Routes)
    requires Least(adj, src, prev, dist, queue, Some(u), seen, route)
    ensures Least(adj, src, prev, dist, queue, None, [], route)
  {
  }

  lemma TakeInOrder(dist: map<Guid, nat>, route: Routes, queue: seq<Guid>)
    requires InOrder(dist, route, queue) && queue != []
    ensures InOrder(dist, route, queue[1..]) && FirstInLine(dist, route, queue[1..], queue[0], [])
  {
    var rest := queue[1..];
    assert forall i :: 0 <= i < |rest| ==> rest[i] == queue[i + 1] && rest[i] in queue;
    forall i, j | 0 <= i < j < |rest| && dist[rest[i]] == dist[rest[j]]
      ensures Less(route[rest[i]], route[rest[j]])
    {
      assert rest[i] == queue[i + 1] && rest[j] == queue[j + 1];
    }
    forall x | x in rest && dist[x] == dist[queue[0]]
      ensures Less(route[queue[0]], route[x])
    {
      var i :| 0 <= i < |rest| && rest[i] == x;
      assert queue[i + 1] == x;
    }
    assert queue[0] in queue && forall x :: x in rest ==> x in queue;
  }

  lemma TakeLeast(adj: Adjacency, src: Guid, prev: map<Guid, Option<Guid>>, dist: map<Guid, nat>, queue: seq<Guid>,
                  route: Routes)
    requires Least(adj, src, prev, dist, queue, None, [], route) && queue != []
    ensures Least(adj, src, prev, dist, queue[1..], Some(queue[0]), [], route)
  {
    TakeInOrder(dist, route, queue);
  }

  lemma StartLeast(adj: Adjacency, src: Guid)
    ensures Least(adj, src, map[src := None], map[src := 0], [src], None, [], map[src := [src]])
  {
    forall q | IsPath(adj, q, src, src) && |q| == 1
      ensures NotAfter([src], q)
    {
      assert q == [src];
    }
  }

  // ---------- the route that is found ----------

  // Among the shortest routes the first one in dictionary order.
  ghost predicate IsFirstShortest(adj: Adjacency, p: seq<Guid>, src: Guid, dst: Guid) {
    IsShortestPath(adj, p, src, dst) && forall q :: IsShortestPath(adj, q, src, dst) ==> NotAfter(p, q)
  }

  /** There is only one such route. */
  lemma FirstShortestUnique(adj: Adjacency, p: seq<Guid>, q: seq<Guid>, src: Guid, dst: Guid)
    requires IsFirstShortest(adj, p, src, dst) && IsFirstShortest(adj, q, src, dst)
    ensures p == q
  {
    NotAfterBoth(p, q);
  }

  /** The destination is a new neighbour of u: the route through u is the first of the shortest ones. */
  lemma ThroughIsFirst(adj: Adjacency, src: Guid, dst: Guid, prev: map<Guid, Option<Guid>>, dist: map<Guid, nat>,
                       queue: seq<Guid>, u: Guid, d: nat, seen: seq<Guid>, route: Routes)
    requires Searching(adj, src, dst, prev, dist, queue, Some(u), d)
    requires Least(adj, src, prev, dist, queue, Some(u), seen, route) && dst in Neighbours(adj, u)
    ensures IsFirstShortest(adj, route[u] + [dst], src, dst)
  {
    NewRouteLeast(adj, src, dst, prev, dist, queue, u, d, seen, route, dst);
    assert IsPath(adj, route[u] + [dst], src, dst);
    forall q | IsPath(adj, q, src, dst)
      ensures |q| >= d + 2
    {
      NoShorterWalk(adj, src, dst, prev, dist, queue, u, d, q);
    }
    assert LeastTo(adj, src, dst, route[u] + [dst]);
  }
}
