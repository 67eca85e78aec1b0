/** The vendor relationship graph: depth-bounded breadth-first search over undirected edges, and the
    subgraph it selects. */
module VendorGraph {
  import opened Options
  import opened Selections

  datatype Node = Node(id: string)

  datatype Edge = Edge(id: string, source: string, target: string)

  datatype Graph = Graph(nodes: seq<Node>, edges: seq<Edge>)

  /** A queue item: a node id and the distance at which it was found. */
  datatype Item = Item(id: string, distance: int)

  type Adjacency = map<string, seq<string>>

  // ---------------------------------------------------------------------------------------------
  // Walks and distances
  // ---------------------------------------------------------------------------------------------

  predicate Joins(e: Edge, u: string, v: string) {
    (e.source == u && e.target == v) || (e.source == v && e.target == u)
  }

  /** Some edge joins `u` and `v`, in either direction. */
  predicate Adjacent(edges: seq<Edge>, u: string, v: string) {
    edges != [] && (Joins(edges[|edges| - 1], u, v) || Adjacent(edges[..|edges| - 1], u, v))
  }

  /** A path as the sequence of its nodes; it has one edge fewer than nodes. */
  ghost predicate IsPath(edges: seq<Edge>, path: seq<string>) {
    && path != []
    && forall i | 0 <= i < |path| - 1 :: Adjacent(edges, path[i], path[i + 1])
  }

  ghost predicate PathWithin(edges: seq<Edge>, from: string, to: string, k: int, path: seq<string>) {
    IsPath(edges, path) && path[0] == from && path[|path| - 1] == to && |path| - 1 <= k
  }

  function Ends(edges: seq<Edge>): set<string> {
    if edges == [] then {}
    else Ends(edges[..|edges| - 1]) + {edges[|edges| - 1].source, edges[|edges| - 1].target}
  }

  ghost function Neighbours(edges: seq<Edge>, s: set<string>): set<string> {
    set v | v in Ends(edges) && exists u :: u in s && Adjacent(edges, u, v)
  }

  /** The ids at distance at most `k`; nothing for a negative `k`. */
  ghost function Ball(edges: seq<Edge>, start: string, k: int): set<string>
    decreases if k < 0 then 0 else k + 1
  {
    if k < 0 then {} else if k == 0 then {start}
    else Ball(edges, start, k - 1) + Neighbours(edges, Ball(edges, start, k - 1))
  }

  lemma {:induction false} AdjacentEnds(edges: seq<Edge>, u: string, v: string)
    requires Adjacent(edges, u, v)
    ensures v in Ends(edges)
  {
    if !Joins(edges[|edges| - 1], u, v) {
      AdjacentEnds(edges[..|edges| - 1], u, v);
    }
  }

  lemma {:induction false} BallMonotone(edges: seq<Edge>, start: string, j: int, k: int)
    requires j <= k
    ensures Ball(edges, start, j) <= Ball(edges, start, k)
    decreases k - j
  {
    if j < k {
      BallMonotone(edges, start, j, k - 1);
    }
  }

  lemma BallStep(edges: seq<Edge>, start: string, k: int, u: string, v: string)
    requires k >= 0 && u in Ball(edges, start, k) && Adjacent(edges, u, v)
    ensures v in Ball(edges, start, k + 1)
  {
    AdjacentEnds(edges, u, v);
  }

  lemma {:induction false} BallInUniverse(edges: seq<Edge>, start: string, k: int)
    ensures Ball(edges, start, k) <= {start} + Ends(edges)
    decreases if k < 0 then 0 else k + 1
  {
    if k > 0 {
      BallInUniverse(edges, start, k - 1);
    }
  }

  lemma {:induction false} PathReaches(edges: seq<Edge>, path: seq<string>, k: int)
    requires IsPath(edges, path) && |path| - 1 <= k
    ensures path[|path| - 1] in Ball(edges, path[0], k)
    decreases |path|
  {
    var n := |path| - 1;
    if n > 0 {
      PathReaches(edges, path[..n], n - 1);
      assert Adjacent(edges, path[n - 1], path[n - 1 + 1]);
      BallStep(edges, path[0], n - 1, path[n - 1], path[n]);
    }
    BallMonotone(edges, path[0], n, k);
  }

  lemma PathExtends(edges: seq<Edge>, path: seq<string>, v: string)
    requires IsPath(edges, path) && Adjacent(edges, path[|path| - 1], v)
    ensures IsPath(edges, path + [v])
  {
    var longer := path + [v];
    forall i | 0 <= i < |longer| - 1
      ensures Adjacent(edges, longer[i], longer[i + 1])
    {
      if i < |path| - 1 {
        assert Adjacent(edges, path[i], path[i + 1]);
      }
    }
  }

  lemma {:induction false} ReachedByPath(edges: seq<Edge>, start: string, k: int, v: string) returns (path: seq<string>)
    requires v in Ball(edges, start, k)
    ensures PathWithin(edges, start, v, k, path)
    decreases if k < 0 then 0 else k + 1
  {
    if k == 0 {
      path := [start];
    } else if v in Ball(edges, start, k - 1) {
      path := ReachedByPath(edges, start, k - 1, v);
    } else {
      var u :| u in Ball(edges, start, k - 1) && Adjacent(edges, u, v);
      var prefix := ReachedByPath(edges, start, k - 1, u);
      path := prefix + [v];
      PathExtends(edges, prefix, v);
    }
  }

  /** The ball of radius `k` is exactly the set of ids joined to `start` by a path of at most `k` edges. */
  lemma BallIsPaths(edges: seq<Edge>, start: string, k: int, v: string)
    ensures v in Ball(edges, start, k) <==> exists path :: PathWithin(edges, start, v, k, path)
  {
    if v in Ball(edges, start, k) {
      var path := ReachedByPath(edges, start, k, v);
    }
    forall path | PathWithin(edges, start, v, k, path)
      ensures v in Ball(edges, start, k)
    {
      PathReaches(edges, path, k);
    }
  }

  /** `d` is the length of a shortest path from `start` to `v`. */
  ghost predicate IsDistance(edges: seq<Edge>, start: string, v: string, d: int) {
    v in Ball(edges, start, d) && v !in Ball(edges, start, d - 1)
  }

  // ---------------------------------------------------------------------------------------------
  // What the search keeps
  // ---------------------------------------------------------------------------------------------

  /** `w` has been visited, or waits in the queue at a distance of at most `d`. */
  ghost predicate Handled(dist: map<string, int>, queue: seq<Item>, w: string, d: int) {
    w in dist || exists i | 0 <= i < |queue| :: queue[i].id == w && queue[i].distance <= d
  }

  /** Distances in the queue never decrease, and span at most one step. */
  ghost predicate QueueOrdered(queue: seq<Item>) {
    && (forall i, j | 0 <= i < j < |queue| :: queue[i].distance <= queue[j].distance)
    && (forall i | 0 <= i < |queue| :: queue[i].distance <= queue[0].distance + 1)
  }

  ghost predicate ItemSound(edges: seq<Edge>, start: string, item: Item) {
    item.distance >= 0 && item.id in Ball(edges, start, item.distance)
  }

  ghost predicate QueueSound(edges: seq<Edge>, start: string, queue: seq<Item>) {
    forall i | 0 <= i < |queue| :: ItemSound(edges, start, queue[i])
  }

  /** Visited ids carry their shortest distance, which the bound allows. */
  ghost predicate DistancesExact(edges: seq<Edge>, start: string, depth: int, dist: map<string, int>) {
    forall v | v in dist :: 0 <= dist[v] <= depth && IsDistance(edges, start, v, dist[v])
  }

  /** The neighbours of every visited id short of the bound are visited or waiting, and so is the start. */
  ghost predicate Complete(edges: seq<Edge>, start: string, depth: int, queue: seq<Item>, dist: map<string, int>) {
    && (depth >= 0 ==> Handled(dist, queue, start, 0))
    && forall v, w | v in dist && dist[v] < depth && Adjacent(edges, v, w) :: Handled(dist, queue, w, dist[v] + 1)
  }

  /** Everything nearer than the front of the queue has been visited. */
  ghost predicate FrontReached(edges: seq<Edge>, start: string, depth: int, queue: seq<Item>, dist: map<string, int>) {
    queue != [] ==>
      forall k | k < queue[0].distance && k <= depth :: Covers(edges, start, k, dist.Keys)
  }

  ghost predicate Inv(edges: seq<Edge>, start: string, depth: int, queue: seq<Item>, dist: map<string, int>) {
    && QueueOrdered(queue) && QueueSound(edges, start, queue)
    && DistancesExact(edges, start, depth, dist)
    && Complete(edges, start, depth, queue, dist)
    && FrontReached(edges, start, depth, queue, dist)
  }

  /** All ids at distance at most `k` are among `ids`. */
  ghost predicate Covers(edges: seq<Edge>, start: string, k: int, ids: set<string>) {
    Ball(edges, start, k) <= ids
  }

  ghost predicate NoneWithin(queue: seq<Item>, k: int) {
    forall i | 0 <= i < |queue| :: queue[i].distance > k
  }

  /** One ring further out: a neighbour of the visited ball is visited too, when nothing near it waits. */
  lemma NeighbourVisited(edges: seq<Edge>, start: string, depth: int, queue: seq<Item>, dist: map<string, int>,
                         k: int, u: string, w: string)
    requires DistancesExact(edges, start, depth, dist) && Complete(edges, start, depth, queue, dist)
    requires k < depth && NoneWithin(queue, k + 1) && Covers(edges, start, k, dist.Keys)
    requires u in Ball(edges, start, k) && Adjacent(edges, u, w)
    ensures w in dist
  {
    assert u in dist.Keys;
    DistanceBound(edges, start, u, dist[u], k);
    assert Handled(dist, queue, w, dist[u] + 1);
  }

  lemma CoversNext(edges: seq<Edge>, start: string, k: int, ids: set<string>)
    requires k >= 0 && Covers(edges, start, k, ids)
    requires forall u, w | u in Ball(edges, start, k) && Adjacent(edges, u, w) :: w in ids
    ensures Covers(edges, start, k + 1, ids)
  {
    assert Neighbours(edges, Ball(edges, start, k)) <= ids;
  }

  lemma StartVisited(edges: seq<Edge>, start: string, depth: int, queue: seq<Item>, dist: map<string, int>)
    requires Complete(edges, start, depth, queue, dist) && 0 <= depth && NoneWithin(queue, 0)
    ensures Covers(edges, start, 0, dist.Keys)
  {
    assert Handled(dist, queue, start, 0);
  }

  lemma NextRingVisited(edges: seq<Edge>, start: string, depth: int, queue: seq<Item>, dist: map<string, int>, k: int)
    requires DistancesExact(edges, start, depth, dist) && Complete(edges, start, depth, queue, dist)
    requires 0 <= k < depth && NoneWithin(queue, k + 1) && Covers(edges, start, k, dist.Keys)
    ensures Covers(edges, start, k + 1, dist.Keys)
  {
    forall u, w | u in Ball(edges, start, k) && Adjacent(edges, u, w)
      ensures w in dist.Keys
    {
      NeighbourVisited(edges, start, depth, queue, dist, k, u, w);
    }
    CoversNext(edges, start, k, dist.Keys);
  }

  lemma RingVisited(edges: seq<Edge>, start: string, depth: int, queue: seq<Item>, dist: map<string, int>, k: int)
    requires DistancesExact(edges, start, depth, dist) && Complete(edges, start, depth, queue, dist)
    requires 0 <= k <= depth && NoneWithin(queue, k) && Covers(edges, start, k - 1, dist.Keys)
    ensures Covers(edges, start, k, dist.Keys)
  {
    if k == 0 {
      StartVisited(edges, start, depth, queue, dist);
    } else {
      NextRingVisited(edges, start, depth, queue, dist, k - 1);
    }
  }

  lemma {:induction false} RingByRing(edges: seq<Edge>, start: string, ids: set<string>, k: int)
    requires forall j | 0 <= j <= k && Covers(edges, start, j - 1, ids) :: Covers(edges, start, j, ids)
    ensures Covers(edges, start, k, ids)
    decreases if k < 0 then 0 else k + 1
  {
    if k >= 0 {
      RingByRing(edges, start, ids, k - 1);
      assert Covers(edges, start, k - 1, ids);
    }
  }

  /** Once no item at distance `k` or less waits, the whole ball of radius `k` has been visited. */
  lemma BallVisited(edges: seq<Edge>, start: string, depth: int, queue: seq<Item>, dist: map<string, int>, k: int)
    requires DistancesExact(edges, start, depth, dist) && Complete(edges, start, depth, queue, dist)
    requires k <= depth && NoneWithin(queue, k)
    ensures Covers(edges, start, k, dist.Keys)
  {
    forall j | 0 <= j <= k && Covers(edges, start, j - 1, dist.Keys)
      ensures Covers(edges, start, j, dist.Keys)
    {
      RingVisited(edges, start, depth, queue, dist, j);
    }
    RingByRing(edges, start, dist.Keys, k);
  }

  lemma DistanceBound(edges: seq<Edge>, start: string, v: string, d: int, k: int)
    requires IsDistance(edges, start, v, d) && v in Ball(edges, start, k)
    ensures d <= k
  {
    if d > k {
      BallMonotone(edges, start, k, d - 1);
    }
  }

  lemma FrontAdvances(edges: seq<Edge>, start: string, depth: int, queue: seq<Item>, dist: map<string, int>)
    requires QueueOrdered(queue)
    requires DistancesExact(edges, start, depth, dist) && Complete(edges, start, depth, queue, dist)
    ensures FrontReached(edges, start, depth, queue, dist)
  {
    if queue != [] {
      forall k | k < queue[0].distance && k <= depth
        ensures Covers(edges, start, k, dist.Keys)
      {
        assert forall i | 0 <= i < |queue| :: queue[0].distance <= queue[i].distance;
        BallVisited(edges, start, depth, queue, dist, k);
      }
    }
  }

  /** Dropping a front item that is visited or beyond the bound keeps the invariant. */
  lemma SkipKeeps(edges: seq<Edge>, start: string, depth: int, queue: seq<Item>, dist: map<string, int>)
    requires Inv(edges, start, depth, queue, dist) && queue != []
    requires queue[0].id in dist || queue[0].distance > depth
    ensures Inv(edges, start, depth, queue[1..], dist)
  {
    var rest := queue[1..];
    assert QueueOrdered(rest) by {
      assert forall i | 0 <= i < |rest| :: rest[i] == queue[i + 1];
      assert rest != [] ==> queue[0].distance <= rest[0].distance;
    }
    forall w, d | d <= depth && Handled(dist, queue, w, d)
      ensures Handled(dist, rest, w, d)
    {
      HandledAfterPop(dist, queue, w, d);
    }
    FrontAdvances(edges, start, depth, rest, dist);
  }

  lemma HandledAfterPop(dist: map<string, int>, queue: seq<Item>, w: string, d: int)
    requires queue != [] && Handled(dist, queue, w, d)
    requires queue[0].id in dist || queue[0].distance > d
    ensures Handled(dist, queue[1..], w, d)
  {
    if w !in dist {
      var i :| 0 <= i < |queue| && queue[i].id == w && queue[i].distance <= d;
      assert queue[1..][i - 1] == queue[i];
    }
  }

  lemma HandledGrows(dist: map<string, int>, dist': map<string, int>, queue: seq<Item>, more: seq<Item>, w: string,
                     d: int)
    requires Handled(dist, queue, w, d) && dist.Keys <= dist'.Keys
    ensures Handled(dist', queue + more, w, d)
  {
    if w !in dist {
      var i :| 0 <= i < |queue| && queue[i].id == w && queue[i].distance <= d;
      assert (queue + more)[i] == queue[i];
    }
  }

  /** A front item that is new and within the bound is met at its shortest distance. */
  lemma FrontIsShortest(edges: seq<Edge>, start: string, depth: int, queue: seq<Item>, dist: map<string, int>)
    requires Inv(edges, start, depth, queue, dist) && queue != []
    requires queue[0].id !in dist && queue[0].distance <= depth
    ensures IsDistance(edges, start, queue[0].id, queue[0].distance)
  {
    assert Covers(edges, start, queue[0].distance - 1, dist.Keys);
  }

  /** The items that expanding an id at distance `d` puts in the queue. */
  ghost predicate Expansion(edges: seq<Edge>, dist: map<string, int>, id: string, d: int, more: seq<Item>) {
    && (forall i | 0 <= i < |more| :: more[i].distance == d + 1 && Adjacent(edges, id, more[i].id))
    && (forall w | Adjacent(edges, id, w) && w !in dist :: exists i | 0 <= i < |more| :: more[i].id == w)
  }

  /** Visiting the front item and queueing its unvisited neighbours keeps the invariant. */
  lemma VisitKeeps(edges: seq<Edge>, start: string, depth: int, queue: seq<Item>, dist: map<string, int>,
                   more: seq<Item>)
    requires Inv(edges, start, depth, queue, dist) && queue != []
    requires queue[0].id !in dist && queue[0].distance <= depth
    requires Expansion(edges, dist[queue[0].id := queue[0].distance], queue[0].id, queue[0].distance, more)
    ensures Inv(edges, start, depth, queue[1..] + more, dist[queue[0].id := queue[0].distance])
  {
    var front := queue[0];
    var rest, dist' := queue[1..], dist[front.id := front.distance];
    var longer := rest + more;
    FrontIsShortest(edges, start, depth, queue, dist);
    assert QueueOrdered(longer) by { VisitKeepsOrder(queue, more); }
    assert QueueSound(edges, start, longer) by { VisitKeepsSound(edges, start, queue, more); }
    assert DistancesExact(edges, start, depth, dist');
    VisitKeepsComplete(edges, start, depth, queue, dist, more);
    FrontAdvances(edges, start, depth, longer, dist');
  }

  lemma VisitKeepsOrder(queue: seq<Item>, more: seq<Item>)
    requires queue != [] && QueueOrdered(queue)
    requires forall i | 0 <= i < |more| :: more[i].distance == queue[0].distance + 1
    ensures QueueOrdered(queue[1..] + more)
  {
    var rest := queue[1..];
    var longer := rest + more;
    assert forall i | 0 <= i < |rest| :: longer[i] == queue[i + 1];
    assert forall i | |rest| <= i < |longer| :: longer[i] == more[i - |rest|];
    assert longer != [] ==> queue[0].distance <= longer[0].distance;
  }

  lemma VisitKeepsSound(edges: seq<Edge>, start: string, queue: seq<Item>, more: seq<Item>)
    requires queue != [] && QueueSound(edges, start, queue)
    requires forall i | 0 <= i < |more| ::
               more[i].distance == queue[0].distance + 1 && Adjacent(edges, queue[0].id, more[i].id)
    ensures QueueSound(edges, start, queue[1..] + more)
  {
    forall i | 0 <= i < |more|
      ensures ItemSound(edges, start, more[i])
    {
      assert ItemSound(edges, start, queue[0]);
      BallStep(edges, start, queue[0].distance, queue[0].id, more[i].id);
    }
    assert forall i | 0 <= i < |queue| - 1 :: queue[1..][i] == queue[i + 1];
  }

  lemma VisitKeepsComplete(edges: seq<Edge>, start: string, depth: int, queue: seq<Item>, dist: map<string, int>,
                           more: seq<Item>)
    requires queue != [] && Complete(edges, start, depth, queue, dist)
    requires queue[0].id !in dist
    requires Expansion(edges, dist[queue[0].id := queue[0].distance], queue[0].id, queue[0].distance, more)
    ensures Complete(edges, start, depth, queue[1..] + more, dist[queue[0].id := queue[0].distance])
  {
    var front := queue[0];
    var dist' := dist[front.id := front.distance];
    var longer := queue[1..] + more;
    forall w, d | Handled(dist, queue, w, d)
      ensures Handled(dist', longer, w, d)
    {
      HandledGrows(dist, dist', queue, [], w, d);
      assert queue + [] == queue;
      HandledAfterPop(dist', queue, w, d);
      HandledGrows(dist', dist', queue[1..], more, w, d);
    }
    forall v, w | v in dist' && dist'[v] < depth && Adjacent(edges, v, w)
      ensures Handled(dist', longer, w, dist'[v] + 1)
    {
      if v == front.id {
        if w !in dist' {
          var i :| 0 <= i < |more| && more[i].id == w;
          assert longer[|queue[1..]| + i] == more[i];
        }
      } else {
        assert Handled(dist, queue, w, dist[v] + 1);
      }
    }
  }

  lemma ExpansionHolds(edges: seq<Edge>, adjacency: Adjacency, dist: map<string, int>, id: string, d: int,
                       more: seq<Item>)
    requires Represents(adjacency, edges)
    requires forall i | 0 <= i < |more| :: more[i].distance == d + 1 && more[i].id in Lookup(adjacency, id)
    requires forall w | w in Lookup(adjacency, id) && w !in dist :: exists i | 0 <= i < |more| :: more[i].id == w
    ensures Expansion(edges, dist, id, d, more)
  {
    forall w | Adjacent(edges, id, w) && w !in dist
      ensures exists i | 0 <= i < |more| :: more[i].id == w
    {
      assert w in Lookup(adjacency, id);
    }
  }

  lemma InitialInv(edges: seq<Edge>, start: string, depth: int)
    ensures Inv(edges, start, depth, [Item(start, 0)], map[])
  {
    var queue := [Item(start, 0)];
    assert queue[0].id == start && queue[0].distance <= 0;
  }

  lemma EmptyQueueMeansBall(edges: seq<Edge>, start: string, depth: int, dist: map<string, int>)
    requires Inv(edges, start, depth, [], dist)
    ensures dist.Keys == Ball(edges, start, depth)
  {
    BallVisited(edges, start, depth, [], dist, depth);
    forall v | v in dist
      ensures v in Ball(edges, start, depth)
    {
      BallMonotone(edges, start, dist[v], depth);
    }
  }

  // ---------------------------------------------------------------------------------------------
  // The service
  // ---------------------------------------------------------------------------------------------

  function Lookup(adjacency: Adjacency, id: string): seq<string> {
    if id in adjacency then adjacency[id] else []
  }

  /** Every edge is entered in both directions. */
  ghost predicate Represents(adjacency: Adjacency, edges: seq<Edge>) {
    forall u, v :: v in Lookup(adjacency, u) <==> Adjacent(edges, u, v)
  }

  method Connect(adjacency: Adjacency, e: Edge) returns (r: Adjacency)
    ensures forall u, v :: v in Lookup(r, u) <==> v in Lookup(adjacency, u) || Joins(e, u, v)
  {
    r := adjacency[e.source := Lookup(adjacency, e.source) + [e.target]];
    r := r[e.target := Lookup(r, e.target) + [e.source]];
  }

  lemma RepresentsSnoc(before: Adjacency, after: Adjacency, edges: seq<Edge>, e: Edge)
    requires Represents(before, edges)
    requires forall u, v :: v in Lookup(after, u) <==> v in Lookup(before, u) || Joins(e, u, v)
    ensures Represents(after, edges + [e])
  {
    assert (edges + [e])[..|edges|] == edges;
  }

  method BuildAdjacency(edges: seq<Edge>) returns (adjacency: Adjacency)
    ensures Represents(adjacency, edges)
  {
    adjacency := map[];
    for i := 0 to |edges|
      invariant Represents(adjacency, edges[..i])
    {
      var e := edges[i];
      ghost var before := adjacency;
      adjacency := Connect(adjacency, e);
      RepresentsSnoc(before, adjacency, edges[..i], e);
      assert edges[..i + 1] == edges[..i] + [e];
    }
    assert edges[..|edges|] == edges;
  }

  /** The unvisited neighbours of an expanded id, as new queue items. */
  method Expand(neighbours: seq<string>, visited: set<string>, d: int) returns (more: seq<Item>)
    ensures forall i | 0 <= i < |more| :: more[i].distance == d + 1 && more[i].id in neighbours
    ensures forall w | w in neighbours && w !in visited :: exists i | 0 <= i < |more| :: more[i].id == w
  {
    more := [];
    for j := 0 to |neighbours|
      invariant forall i | 0 <= i < |more| :: more[i].distance == d + 1 && more[i].id in neighbours
      invariant forall w | w in neighbours[..j] && w !in visited :: exists i | 0 <= i < |more| :: more[i].id == w
    {
      var neighbour := neighbours[j];
      ghost var before := more;
      if neighbour !in visited {
        more := more + [Item(neighbour, d + 1)];
        assert more[|more| - 1].id == neighbour;
      }
      assert forall i | 0 <= i < |before| :: more[i] == before[i];
    }
  }

  /** Breadth-first search: exactly the ids within `depth` edges of `start`, each expanded at its shortest
      distance. Terminates although ids may be queued many times. */
  method ReachableIds(edges: seq<Edge>, start: string, depth: int)
    returns (reachable: set<string>, ghost dist: map<string, int>)
    ensures reachable == Ball(edges, start, depth)
    ensures dist.Keys == reachable && forall v | v in dist :: IsDistance(edges, start, v, dist[v])
  {
    var adjacency := BuildAdjacency(edges);
    var visited := {};
    reachable := {};
    dist := map[];
    var queue := [Item(start, 0)];
    ghost var universe := {start} + Ends(edges);
    InitialInv(edges, start, depth);
    while queue != []
      invariant visited == reachable == dist.Keys
      invariant Inv(edges, start, depth, queue, dist)
      invariant visited <= universe
      decreases universe - visited, |queue|
    {
      var front := queue[0];
      if front.id in visited || front.distance > depth {
        SkipKeeps(edges, start, depth, queue, dist);
        queue := queue[1..];
      } else {
        visited := visited + {front.id};
        reachable := reachable + {front.id};
        var more := Expand(Lookup(adjacency, front.id), visited, front.distance);
        ghost var dist' := dist[front.id := front.distance];
        ExpansionHolds(edges, adjacency, dist', front.id, front.distance, more);
        VisitKeeps(edges, start, depth, queue, dist, more);
        BallInUniverse(edges, start, front.distance);
        dist := dist';
        queue := queue[1..] + more;
      }
    }
    EmptyQueueMeansBall(edges, start, depth, dist);
  }

  ghost predicate UniqueIds(nodes: seq<Node>) {
    forall i, j | 0 <= i < j < |nodes| :: nodes[i].id != nodes[j].id
  }

  function SelectNodes(nodes: seq<Node>, ids: set<string>): seq<Node> {
    if nodes == [] then []
    else
      var n := |nodes| - 1;
      var earlier := SelectNodes(nodes[..n], ids);
      if nodes[n].id in ids then earlier + [nodes[n]] else earlier
  }

  function SelectEdges(edges: seq<Edge>, ids: set<string>): seq<Edge> {
    if edges == [] then []
    else
      var n := |edges| - 1;
      var earlier := SelectEdges(edges[..n], ids);
      if edges[n].source in ids && edges[n].target in ids then earlier + [edges[n]] else earlier
  }

  /** The induced subgraph on the ids within `depth` edges of the vendor; none if there is no such node. Node
      ids are a primary key. */
  method GetVendorGraph(nodes: seq<Node>, edges: seq<Edge>, vendorToken: string, depth: int)
    returns (graph: Option<Graph>)
    requires UniqueIds(nodes)
    ensures graph.None? <==> forall i | 0 <= i < |nodes| :: nodes[i].id != vendorToken
    ensures graph.Some? ==>
              graph.value == Graph(SelectNodes(nodes, Ball(edges, vendorToken, depth)),
                                   SelectEdges(edges, Ball(edges, vendorToken, depth)))
  {
    var found := exists i | 0 <= i < |nodes| :: nodes[i].id == vendorToken;
    if !found {
      return None;
    }
    var reachable, _ := ReachableIds(edges, vendorToken, depth);
    graph := Some(Graph(SelectNodes(nodes, reachable), SelectEdges(edges, reachable)));
  }

  /** The selected subgraph: a node row is in it exactly if a path of at most `depth` edges joins it to the
      vendor, and an edge row exactly if that holds of both its ends. */
  lemma SelectedIffReachable(nodes: seq<Node>, edges: seq<Edge>, vendorToken: string, depth: int, n: Node, e: Edge)
    ensures n in SelectNodes(nodes, Ball(edges, vendorToken, depth)) <==>
            n in nodes && exists path :: PathWithin(edges, vendorToken, n.id, depth, path)
    ensures e in SelectEdges(edges, Ball(edges, vendorToken, depth)) <==>
            && e in edges
            && (exists path :: PathWithin(edges, vendorToken, e.source, depth, path))
            && (exists path :: PathWithin(edges, vendorToken, e.target, depth, path))
  {
    var ball := Ball(edges, vendorToken, depth);
    BallIsPaths(edges, vendorToken, depth, n.id);
    BallIsPaths(edges, vendorToken, depth, e.source);
    BallIsPaths(edges, vendorToken, depth, e.target);
    SelectNodesMembers(nodes, ball, n);
    SelectEdgesMembers(edges, ball, e);
  }

  lemma {:induction false} SelectNodesMembers(nodes: seq<Node>, ids: set<string>, n: Node)
    ensures n in SelectNodes(nodes, ids) <==> n in nodes && n.id in ids
  {
    if nodes != [] {
      SelectNodesMembers(nodes[..|nodes| - 1], ids, n);
      assert nodes == nodes[..|nodes| - 1] + [nodes[|nodes| - 1]];
    }
  }

  lemma {:induction false} SelectEdgesMembers(edges: seq<Edge>, ids: set<string>, e: Edge)
    ensures e in SelectEdges(edges, ids) <==> e in edges && e.source in ids && e.target in ids
  {
    if edges != [] {
      SelectEdgesMembers(edges[..|edges| - 1], ids, e);
      assert edges == edges[..|edges| - 1] + [edges[|edges| - 1]];
    }
  }

  /** Node rows are selected in their order, each as often as it occurs. */
  lemma SelectNodesFilters(nodes: seq<Node>, ids: set<string>)
    ensures Filters(nodes, (n: Node) => n.id in ids, SelectNodes(nodes, ids))
  {
    var f, keep := (s: seq<Node>) => SelectNodes(s, ids), (n: Node) => n.id in ids;
    forall s: seq<Node>, n: Node
      ensures f(s + [n]) == if keep(n) then f(s) + [n] else f(s)
    {
      assert (s + [n])[..|s|] == s;
    }
    KeepsOrDropsFilters(nodes, keep, f);
  }

  /** And so are edge rows. */
  lemma SelectEdgesFilters(edges: seq<Edge>, ids: set<string>)
    ensures Filters(edges, (e: Edge) => e.source in ids && e.target in ids, SelectEdges(edges, ids))
  {
    var f, keep := (s: seq<Edge>) => SelectEdges(s, ids), (e: Edge) => e.source in ids && e.target in ids;
    forall s: seq<Edge>, e: Edge
      ensures f(s + [e]) == if keep(e) then f(s) + [e] else f(s)
    {
      assert (s + [e])[..|s|] == s;
    }
    KeepsOrDropsFilters(edges, keep, f);
  }

  ghost predicate JoinedWithin(edges: seq<Edge>, from: string, to: string, k: int) {
    exists path :: PathWithin(edges, from, to, k, path)
  }

  lemma BallIsJoined(edges: seq<Edge>, from: string, k: int)
    ensures forall id :: id in Ball(edges, from, k) <==> JoinedWithin(edges, from, id, k)
  {
    forall id
      ensures id in Ball(edges, from, k) <==> JoinedWithin(edges, from, id, k)
    {
      BallIsPaths(edges, from, k, id);
    }
  }

  /** The selected subgraph as lists: exactly the node rows joined to the vendor by a path of at most `depth` edges, and
      the edge rows of which both ends are, in the order of the rows and each as often as it occurs. */
  lemma SelectionExact(nodes: seq<Node>, edges: seq<Edge>, vendorToken: string, depth: int)
    ensures var ball := Ball(edges, vendorToken, depth);
            && Filters(nodes, (n: Node) => JoinedWithin(edges, vendorToken, n.id, depth), SelectNodes(nodes, ball))
            && Filters(edges,
                       (e: Edge) => && JoinedWithin(edges, vendorToken, e.source, depth)
                                    && JoinedWithin(edges, vendorToken, e.target, depth),
                       SelectEdges(edges, ball))
  {
    var ball := Ball(edges, vendorToken, depth);
    BallIsJoined(edges, vendorToken, depth);
    SelectNodesFilters(nodes, ball);
    SelectEdgesFilters(edges, ball);
    FiltersSame(nodes, (n: Node) => n.id in ball, SelectNodes(nodes, ball),
                (n: Node) => JoinedWithin(edges, vendorToken, n.id, depth));
    FiltersSame(edges, (e: Edge) => e.source in ball && e.target in ball, SelectEdges(edges, ball),
                (e: Edge) => && JoinedWithin(edges, vendorToken, e.source, depth)
                             && JoinedWithin(edges, vendorToken, e.target, depth));
  }
}
