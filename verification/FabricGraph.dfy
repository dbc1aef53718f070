/**
 The switch graph of an InfiniBand fabric and the state of a breadth-first search over it. Switch
 GUIDs are integers in their sort order; the adjacency map may lack a switch, which then has no neighbours.
 */
module FabricGraph {
  import opened Prelude
  import opened Sorting

  type Guid = int
  type Adjacency = map<Guid, set<Guid>>

  function Neighbours(adj: Adjacency, u: Guid): set<Guid> { if u in adj then adj[u] else {} }

  // A walk along links, as the sequence of its switches.
  ghost predicate IsPath(adj: Adjacency, p: seq<Guid>, src: Guid, dst: Guid) {
    && |p| > 0 && p[0] == src && p[|p| - 1] == dst
    && forall i :: 0 <= i < |p| - 1 ==> p[i + 1] in Neighbours(adj, p[i])
  }

  ghost predicate Reachable(adj: Adjacency, src: Guid, dst: Guid) { exists p :: IsPath(adj, p, src, dst) }

  ghost predicate IsShortestPath(adj: Adjacency, p: seq<Guid>, src: Guid, dst: Guid) {
    IsPath(adj, p, src, dst) && forall q :: IsPath(adj, q, src, dst) ==> |p| <= |q|
  }

  // ---------- the breadth-first state ----------

  // Every discovered switch has a discovered predecessor one step closer to the source.
  ghost predicate Tree(adj: Adjacency, src: Guid, prev: map<Guid, Option<Guid>>, dist: map<Guid, nat>) {
    && prev.Keys == dist.Keys && src in prev && prev[src] == None && dist[src] == 0
    && forall x :: x in prev && x != src ==>
         && prev[x].Some? && prev[x].value in prev
         && x in Neighbours(adj, prev[x].value) && dist[x] == dist[prev[x].value] + 1
  }

  // All neighbours of y are discovered, no farther than one step from it.
  ghost predicate Expanded(adj: Adjacency, dist: map<Guid, nat>, y: Guid)
    requires y in dist
  {
    forall x :: x in Neighbours(adj, y) ==> x in dist && dist[x] <= dist[y] + 1
  }

  // Switches outside the queue (and other than the one being expanded) are expanded.
  ghost predicate Frontier(adj: Adjacency, dist: map<Guid, nat>, queue: seq<Guid>, current: Option<Guid>) {
    forall y :: y in dist && y !in queue && current != Some(y) ==> Expanded(adj, dist, y)
  }

  // The queue is ordered by distance, spans at most two distances, and nothing in it is closer than d.
  ghost predicate Ordered(dist: map<Guid, nat>, queue: seq<Guid>, d: nat) {
    && (forall i :: 0 <= i < |queue| ==> queue[i] in dist && d <= dist[queue[i]] <= d + 1)
    && (forall i, j :: 0 <= i < j < |queue| ==> dist[queue[i]] <= dist[queue[j]])
  }

  // What has left the queue is no farther than d.
  ghost predicate OutsideClose(dist: map<Guid, nat>, queue: seq<Guid>, d: nat) {
    forall y :: y in dist && y !in queue ==> dist[y] <= d
  }

  /** Once everything closer than d is expanded, every walk of at most d links ends at a discovered switch. */
  lemma {:induction false} ShortWalksDiscovered(adj: Adjacency, src: Guid, dist: map<Guid, nat>, d: nat, q: seq<Guid>,
                                                x: Guid)
    requires src in dist && dist[src] == 0
    requires forall y :: y in dist && dist[y] < d ==> Expanded(adj, dist, y)
    requires IsPath(adj, q, src, x) && |q| - 1 <= d
    ensures x in dist && dist[x] <= |q| - 1
    decreases |q|
  {
    if |q| <= 1 {
    } else {
      var y, r := q[|q| - 2], q[..|q| - 1];
      assert IsPath(adj, r, src, y);
      ShortWalksDiscovered(adj, src, dist, d, r, y);
      assert q[|q| - 2 + 1] in Neighbours(adj, q[|q| - 2]);
    }
  }

  /** When everything discovered is expanded, nothing else is reachable. */
  lemma {:induction false} ClosedMeansUnreachable(adj: Adjacency, src: Guid, dist: map<Guid, nat>, q: seq<Guid>,
                                                  x: Guid)
    requires src in dist && forall y :: y in dist ==> Expanded(adj, dist, y)
    requires IsPath(adj, q, src, x)
    ensures x in dist
    decreases |q|
  {
    if |q| <= 1 {
    } else {
      var y, r := q[|q| - 2], q[..|q| - 1];
      assert IsPath(adj, r, src, y);
      ClosedMeansUnreachable(adj, src, dist, r, y);
      assert q[|q| - 2 + 1] in Neighbours(adj, q[|q| - 2]);
    }
  }

  function Reversed(s: seq<Guid>): (r: seq<Guid>)
    ensures |r| == |s| && forall i :: 0 <= i < |s| ==> r[i] == s[|s| - 1 - i]
  {
    if s == [] then [] else Reversed(s[1..]) + [s[0]]
  }

  function Universe(adj: Adjacency): set<Guid> { set u, v | u in adj && v in adj[u] :: v }

  // The search while switch u at distance d is expanded, or, without u, between two expansions.
  ghost predicate Searching(adj: Adjacency, src: Guid, dst: Guid, prev: map<Guid, Option<Guid>>, dist: map<Guid, nat>,
                            queue: seq<Guid>, current: Option<Guid>, d: nat)
  {
    && Tree(adj, src, prev, dist) && dst !in prev && prev.Keys <= Universe(adj) + {src}
    && Frontier(adj, dist, queue, current) && Ordered(dist, queue, d)
    && OutsideClose(dist, queue, d)
    && (current.Some? ==> current.value in dist && dist[current.value] == d)
  }

  /** When the destination is discovered from u, no walk of at most d links reaches it. */
  lemma NoShorterWalk(adj: Adjacency, src: Guid, dst: Guid, prev: map<Guid, Option<Guid>>, dist: map<Guid, nat>,
                      queue: seq<Guid>, u: Guid, d: nat, q: seq<Guid>)
    requires Searching(adj, src, dst, prev, dist, queue, Some(u), d) && IsPath(adj, q, src, dst)
    ensures |q| >= d + 2
  {
    if |q| - 1 <= d {
      forall y | y in dist && dist[y] < d
        ensures Expanded(adj, dist, y)
      {
        assert y !in queue;
      }
      ShortWalksDiscovered(adj, src, dist, d, q, dst);
    }
  }

  // The first i neighbours are discovered, at most one step past distance d.
  ghost predicate NearUpTo<T>(dist: map<T, nat>, sorted: seq<T>, i: nat, d: nat)
    requires i <= |sorted|
  {
    forall k :: 0 <= k < i ==> sorted[k] in dist && dist[sorted[k]] <= d + 1
  }

  // Discovery only adds, and an unchanged set of switches keeps the queue.
  ghost predicate Grown(prev0: map<Guid, Option<Guid>>, queue0: seq<Guid>, prev: map<Guid, Option<Guid>>,
                        queue: seq<Guid>) {
    prev0.Keys <= prev.Keys && (prev.Keys == prev0.Keys ==> queue == queue0)
  }

  lemma KnownIsNear(adj: Adjacency, src: Guid, dst: Guid, prev: map<Guid, Option<Guid>>, dist: map<Guid, nat>,
                    queue: seq<Guid>, u: Guid, d: nat, v: Guid)
    requires Searching(adj, src, dst, prev, dist, queue, Some(u), d) && v in dist
    ensures dist[v] <= d + 1
  {
  }

  lemma TreeGrows(adj: Adjacency, src: Guid, prev: map<Guid, Option<Guid>>, dist: map<Guid, nat>, u: Guid, v: Guid)
    requires Tree(adj, src, prev, dist) && u in dist && v !in prev && v in Neighbours(adj, u)
    ensures Tree(adj, src, prev[v := Some(u)], dist[v := dist[u] + 1])
  {
  }

  lemma FrontierGrows(adj: Adjacency, dist: map<Guid, nat>, queue: seq<Guid>, u: Guid, d: nat, v: Guid)
    requires Frontier(adj, dist, queue, Some(u)) && v !in dist
    ensures Frontier(adj, dist[v := d + 1], queue + [v], Some(u))
  {
    var dist', queue' := dist[v := d + 1], queue + [v];
    assert v in queue';
    forall y | y in dist' && y !in queue' && Some(u) != Some(y)
      ensures Expanded(adj, dist', y)
    {
      assert y in dist && y !in queue && Expanded(adj, dist, y);
    }
  }

  lemma OrderGrows(dist: map<Guid, nat>, queue: seq<Guid>, d: nat, v: Guid)
    requires Ordered(dist, queue, d) && OutsideClose(dist, queue, d) && v !in dist
    ensures Ordered(dist[v := d + 1], queue + [v], d) && OutsideClose(dist[v := d + 1], queue + [v], d)
  {
    assert v in queue + [v];
  }

  lemma Discover(adj: Adjacency, src: Guid, dst: Guid, prev: map<Guid, Option<Guid>>, dist: map<Guid, nat>,
                 queue: seq<Guid>, u: Guid, d: nat, v: Guid)
    requires Searching(adj, src, dst, prev, dist, queue, Some(u), d)
    requires v !in prev && v in Neighbours(adj, u) && v != dst
    ensures Searching(adj, src, dst, prev[v := Some(u)], dist[v := d + 1], queue + [v], Some(u), d)
  {
    TreeGrows(adj, src, prev, dist, u, v);
    FrontierGrows(adj, dist, queue, u, d, v);
    OrderGrows(dist, queue, d, v);
    assert v in Universe(adj);
  }
}
