/**
 * The shortest-route search between two stations (`findDijkstra`): Dijkstra's
 * algorithm over the station graph with the array-backed priority queue, then
 * the walk back along the predecessor links.
 */
module Search {
  import opened Common
  import opened Network
  import opened Paths
  import opened Queue
  import opened SearchState

  /** `{ path, distance }`: `path` is null (None) and `distance` Infinity when no route was found. */
  datatype SearchResult = SearchResult(path: Option<seq<StationId>>, distance: Ext)

  /**
   * The neighbour loop of one iteration: every neighbour whose label the way
   * through u improves gets the new label, u as predecessor and a queue entry.
   */
  method RelaxNeighbors(u: StationId, neighbors: seq<Neighbor>, distances: Labels, prev: Links, pq: PriorityQueue)
      returns (distances': Labels, prev': Links)
    requires u in distances && distances[u].Fin? && prev.Keys == distances.Keys
    requires forall k :: 0 <= k < |neighbors| ==> neighbors[k].id in distances && neighbors[k].distance >= 0.0
    requires pq.Valid()
    modifies pq
    ensures pq.Valid()
    ensures LabelsAfter(distances, prev, distances[u], u, neighbors, distances', prev')
    ensures QueueAfter(distances, prev, old(pq.collection), distances', prev', pq.collection)
  {
    ghost var du := distances[u];
    distances', prev' := distances, prev;
    var k := 0;
    while k < |neighbors|
      invariant 0 <= k <= |neighbors|
      invariant pq.Valid()
      invariant LabelsAfter(distances, prev, du, u, neighbors[..k], distances', prev')
      invariant QueueAfter(distances, prev, old(pq.collection), distances', prev', pq.collection)
    {
      distances', prev' := VisitNeighbor(u, neighbors[k], distances', prev', pq, distances, prev, old(pq.collection), neighbors[..k]);
      TakeOneMore(neighbors, k);
      k := k + 1;
    }
    TakeAll(neighbors);
  }

  /**
   * Relaxing with one more entry of weight w: the label that the cheaper of
   * m and w gives is the one the loop reaches by comparing du + w with the
   * label so far.
   */
  lemma RelaxMerge(dv: Ext, du: Ext, m: Ext, w: real)
    requires du.Fin?
    ensures var cur := Min(dv, Add(du, m)); var nd := Add(du, Fin(w));
      Min(dv, Add(du, Min(m, Fin(w)))) == (if Lt(nd, cur) then nd else cur) &&
      (Lt(nd, cur) ==> Lt(Add(du, Min(m, Fin(w))), dv)) &&
      (!Lt(nd, cur) ==> (Lt(Add(du, Min(m, Fin(w))), dv) <==> Lt(Add(du, m), dv)))
  {
  }

  /**
   * One turn of the neighbour loop: if going through u improves the label of
   * the neighbour, it takes the new label, u as predecessor and a queue entry.
   */
  method RelaxEdge(u: StationId, neighbor: Neighbor, distances: Labels, prev: Links, pq: PriorityQueue, ghost du: Ext)
      returns (distances': Labels, prev': Links)
    requires u in distances && distances[u] == du && du.Fin? && neighbor.id in distances && pq.Valid()
    modifies pq
    ensures pq.Valid()
    ensures EdgeStep(u, du, neighbor, distances, prev, old(pq.collection), distances', prev', pq.collection)
  {
    var newDistance := distances[u].r + neighbor.distance;
    if Lt(Fin(newDistance), distances[neighbor.id]) {
      distances' := distances[neighbor.id := Fin(newDistance)];
      prev' := prev[neighbor.id := Some(u)];
      pq.Enqueue(neighbor.id, newDistance);
      EnqueueMembers(old(pq.collection), Entry(neighbor.id, newDistance));
    } else {
      distances', prev' := distances, prev;
    }
  }

  /**
   * One turn of the neighbour loop, with the loop invariant: after the entries
   * ns and then this neighbour, the labels, links and queue are those of
   * relaxing u with ns + [neighbor].
   */
  method VisitNeighbor(u: StationId, neighbor: Neighbor, distances: Labels, prev: Links, pq: PriorityQueue,
                       ghost d0: Labels, ghost p0: Links, ghost q0: seq<Entry>, ghost ns: seq<Neighbor>)
      returns (distances': Labels, prev': Links)
    requires u in d0 && d0[u].Fin? && p0.Keys == d0.Keys && neighbor.id in d0 && pq.Valid()
    requires forall k :: 0 <= k < |ns| ==> ns[k].distance >= 0.0
    requires LabelsAfter(d0, p0, d0[u], u, ns, distances, prev) && QueueAfter(d0, p0, q0, distances, prev, pq.collection)
    modifies pq
    ensures pq.Valid()
    ensures LabelsAfter(d0, p0, d0[u], u, ns + [neighbor], distances', prev')
    ensures QueueAfter(d0, p0, q0, distances', prev', pq.collection)
  {
    LoopKeepsOwnLabel(d0, p0, d0[u], u, ns, distances, prev);
    distances', prev' := RelaxEdge(u, neighbor, distances, prev, pq, d0[u]);
    EdgeAdvance(d0, p0, q0, u, ns, neighbor, distances, prev, old(pq.collection), distances', prev', pq.collection);
  }

  /** The loop invariant of the neighbour loop survives one call of RelaxEdge. */
  lemma EdgeAdvance(d0: Labels, p0: Links, q0: seq<Entry>, u: StationId, ns: seq<Neighbor>, nb: Neighbor,
                    dB: Labels, pB: Links, qB: seq<Entry>, dA: Labels, pA: Links, qA: seq<Entry>)
    requires u in d0 && d0[u].Fin? && p0.Keys == d0.Keys && nb.id in d0
    requires forall k :: 0 <= k < |ns| ==> ns[k].distance >= 0.0
    requires LabelsAfter(d0, p0, d0[u], u, ns, dB, pB) && QueueAfter(d0, p0, q0, dB, pB, qB)
    requires EdgeStep(u, d0[u], nb, dB, pB, qB, dA, pA, qA)
    ensures LabelsAfter(d0, p0, d0[u], u, ns + [nb], dA, pA)
    ensures QueueAfter(d0, p0, q0, dA, pA, qA)
  {
    LabelsStep(d0, p0, d0[u], u, ns, nb, dB, pB, qB, dA, pA, qA);
    LabelsBelow(d0, p0, d0[u], u, ns, dB, pB);
    QueueStep(d0, p0, q0, u, d0[u], nb, dB, pB, qB, dA, pA, qA);
  }

  /** The labels and links once the entries ns of u's list have been seen. */
  ghost predicate LabelsAfter(d: Labels, p: Links, du: Ext, u: StationId, ns: seq<Neighbor>, d': Labels, p': Links) {
    d'.Keys == d.Keys && p'.Keys == p.Keys &&
    (forall v :: v in d ==> d'[v] == Min(d[v], Add(du, MinCost(ns, v)))) &&
    (forall v :: v in p && v in d ==> p'[v] == if Lt(Add(du, MinCost(ns, v)), d[v]) then Some(u) else p[v])
  }

  /** The queue during the neighbour loop: it only grows, with entries that carry the new labels. */
  ghost predicate QueueAfter(d: Labels, p: Links, q: seq<Entry>, d': Labels, p': Links, q': seq<Entry>) {
    d'.Keys == d.Keys &&
    (forall e :: e in q ==> e in q') &&
    (forall e :: e in q' ==> e in q || (e.element in d' && d'[e.element].Fin? && d'[e.element].r <= e.priority)) &&
    (forall v :: v in d && Lt(d'[v], d[v]) ==> Entry(v, d'[v].r) in q') &&
    (d' == d ==> p' == p && q' == q)
  }

  /** What one call of RelaxEdge does, as a relation between the states before and after. */
  ghost predicate EdgeStep(u: StationId, du: Ext, nb: Neighbor, dB: Labels, pB: Links, qB: seq<Entry>,
                           dA: Labels, pA: Links, qA: seq<Entry>) {
    nb.id in dB &&
    var nd := Add(du, Fin(nb.distance));
    if Lt(nd, dB[nb.id]) then
      dA == dB[nb.id := nd] && pA == pB[nb.id := Some(u)] &&
      (forall x :: x in qA <==> x in qB || x == Entry(nb.id, nd.r))
    else
      dA == dB && pA == pB && qA == qB
  }

  /** The labels and links keep their loop invariant over one more entry. */
  lemma LabelsStep(d: Labels, p: Links, du: Ext, u: StationId, ns: seq<Neighbor>, nb: Neighbor,
                   dB: Labels, pB: Links, qB: seq<Entry>, dA: Labels, pA: Links, qA: seq<Entry>)
    requires LabelsAfter(d, p, du, u, ns, dB, pB) && du.Fin? && p.Keys == d.Keys
    requires EdgeStep(u, du, nb, dB, pB, qB, dA, pA, qA)
    ensures LabelsAfter(d, p, du, u, ns + [nb], dA, pA)
    ensures forall v :: v in d ==> Le(dA[v], dB[v])
  {
    forall v | v in d
      ensures dA[v] == Min(d[v], Add(du, MinCost(ns + [nb], v)))
      ensures pA[v] == if Lt(Add(du, MinCost(ns + [nb], v)), d[v]) then Some(u) else p[v]
      ensures Le(dA[v], dB[v])
    {
      RelaxEntry(d, p, dB, pB, dA, pA, du, u, ns, nb, v);
    }
  }

  /** During the neighbour loop no label rises above the one it started with. */
  lemma LabelsBelow(d: Labels, p: Links, du: Ext, u: StationId, ns: seq<Neighbor>, dB: Labels, pB: Links)
    requires LabelsAfter(d, p, du, u, ns, dB, pB)
    ensures forall v :: v in d ==> Le(dB[v], d[v])
  {
  }

  /** The queue keeps its loop invariant over one more entry. */
  lemma QueueStep(d: Labels, p: Links, q: seq<Entry>, u: StationId, du: Ext, nb: Neighbor,
                  dB: Labels, pB: Links, qB: seq<Entry>, dA: Labels, pA: Links, qA: seq<Entry>)
    requires QueueAfter(d, p, q, dB, pB, qB) && EdgeStep(u, du, nb, dB, pB, qB, dA, pA, qA)
    requires dB.Keys == d.Keys && forall v :: v in d ==> Le(dA[v], dB[v]) && Le(dB[v], d[v])
    ensures QueueAfter(d, p, q, dA, pA, qA)
  {
    if Lt(Add(du, Fin(nb.distance)), dB[nb.id]) {
      assert dA[nb.id] != d[nb.id];
    }
  }

  /** Once the whole list has been seen, the loop invariant is the relaxation of u. */
  lemma LoopDone(g: Graph, u: StationId, d: Labels, p: Links, q: seq<Entry>, d': Labels, p': Links, q': seq<Entry>)
    requires u in g && u in d && d[u].Fin? && p.Keys == d.Keys
    requires LabelsAfter(d, p, d[u], u, g[u].neighbors, d', p') && QueueAfter(d, p, q, d', p', q')
    ensures Relaxed(g, u, d, p, q, d', p', q')
  {
  }

  /** Entries of non-negative weight never lower u's own label. */
  lemma LoopKeepsOwnLabel(d: Labels, p: Links, du: Ext, u: StationId, ns: seq<Neighbor>, d': Labels, p': Links)
    requires LabelsAfter(d, p, du, u, ns, d', p') && u in d && d[u] == du && du.Fin?
    requires forall k :: 0 <= k < |ns| ==> ns[k].distance >= 0.0
    ensures d'[u] == du
  {
    MinCostSpec(ns, u);
  }

  /** One entry of the neighbour loop, seen at one station v. */
  lemma RelaxEntry(d: Labels, p: Links, dB: Labels, pB: Links, dA: Labels, pA: Links, du: Ext, u: StationId,
                   ns: seq<Neighbor>, nb: Neighbor, v: StationId)
    requires du.Fin? && v in d && v in p && nb.id in dB
    requires dB.Keys == d.Keys && pB.Keys == p.Keys
    requires dB[v] == Min(d[v], Add(du, MinCost(ns, v)))
    requires pB[v] == if Lt(Add(du, MinCost(ns, v)), d[v]) then Some(u) else p[v]
    requires Lt(Add(du, Fin(nb.distance)), dB[nb.id]) ==>
      dA == dB[nb.id := Add(du, Fin(nb.distance))] && pA == pB[nb.id := Some(u)]
    requires !Lt(Add(du, Fin(nb.distance)), dB[nb.id]) ==> dA == dB && pA == pB
    ensures dA[v] == Min(d[v], Add(du, MinCost(ns + [nb], v)))
    ensures pA[v] == if Lt(Add(du, MinCost(ns + [nb], v)), d[v]) then Some(u) else p[v]
    ensures Le(dA[v], dB[v])
  {
    var m := MinCost(ns, v);
    assert (ns + [nb])[..|ns|] == ns;
    assert MinCost(ns + [nb], v) == if nb.id == v then Min(m, Fin(nb.distance)) else m;
    if v == nb.id {
      RelaxMerge(d[v], du, m, nb.distance);
    }
  }


  /**
   * Walks back from the end along the predecessor links (`current = prev.get(current) || null`),
   * prepending each station. An empty end id gives the empty path.
   */
  method ReconstructPath(prev: Links, endId: StationId, ghost g: Graph, ghost d: Labels,
                         ghost done: set<StationId>, ghost rank: map<StationId, nat>)
      returns (path: seq<StationId>)
    requires Tree(g, d, prev, done, rank) && Ranked(done, rank) && done <= g.Keys
    requires prev.Keys == g.Keys && d.Keys == g.Keys
    ensures path == [] <==> endId == ""
    ensures path != [] ==> path[|path| - 1] == endId && Chain(prev, path) && PrevOf(prev, path[0]) == None
  {
    path := [];
    var current := OrNull(Some(endId));
    while current.Some?
      invariant path == [] ==> current == OrNull(Some(endId))
      invariant path != [] ==> endId != ""
      invariant path != [] ==> path[|path| - 1] == endId && Chain(prev, path) && PrevOf(prev, path[0]) == current
      invariant current.Some? ==> current.value != "" && (path != [] ==> current.value in done)
      decreases ChainRank(current, done, rank)
    {
      var x := current.value;
      path := [x] + path;
      current := PrevOf(prev, x);
    }
  }

  /** What the walk back along the links means once the search has settled. */
  lemma ResultCorrect(g: Graph, startId: StationId, endId: StationId, d: Labels, prev: Links,
                      done: set<StationId>, rank: map<StationId, nat>, reached: bool, path: seq<StationId>,
                      r: SearchResult)
    requires Settled(g, startId, endId, d, prev, done, rank, reached)
    requires path == [] <==> endId == ""
    requires path != [] ==> path[|path| - 1] == endId && Chain(prev, path) && PrevOf(prev, path[0]) == None
    requires r == if |path| > 0 && path[0] == startId then SearchResult(Some(path), d[endId]) else SearchResult(None, Inf)
    ensures r.path.None? ==> r.distance == Inf
    ensures r.path.Some? ==> var p := r.path.value;
      IsWalk(g, p) && p[0] == startId && p[|p| - 1] == endId && r.distance == PathCost(g, p)
    ensures r.path.Some? ==> forall w :: IsWalk(g, w) && w[0] == startId && w[|w| - 1] == endId ==> Le(r.distance, PathCost(g, w))
    ensures !Reachable(g, startId, endId) ==> r == SearchResult(None, Inf)
    ensures "" !in g && Reachable(g, startId, endId) ==> r.path.Some?
    ensures startId == endId && startId != "" ==> r == SearchResult(Some([startId]), Fin(0.0))
  {
    if path != [] && path[0] == startId {
      FoundRoute(g, startId, endId, d, prev, done, rank, reached, path);
    }
    if "" !in g && Reachable(g, startId, endId) {
      RouteFound(g, startId, endId, d, prev, done, rank, reached, path);
    }
    if startId == endId && startId != "" {
      SameStation(g, startId, d, prev, done, rank, reached, path);
    }
  }

  /** A walk back that ends at the start is a cheapest walk from the start to the end. */
  lemma FoundRoute(g: Graph, startId: StationId, endId: StationId, d: Labels, prev: Links,
                   done: set<StationId>, rank: map<StationId, nat>, reached: bool, path: seq<StationId>)
    requires Settled(g, startId, endId, d, prev, done, rank, reached)
    requires path != [] && path[|path| - 1] == endId && Chain(prev, path) && path[0] == startId
    ensures IsWalk(g, path) && d[endId] == PathCost(g, path) && reached
  {
    assert endId in g by {
      if |path| > 1 {
        assert endId in prev;
      } else {
        assert endId == startId;
      }
    }
    ChainInGraph(g, d, prev, done, rank, path);
    ChainIsWalk(g, d, prev, done, rank, path);
    WalkCostFinite(g, path);
    assert Reachable(g, startId, endId);
  }

  /** Without an empty station id, a reachable end is found. */
  lemma RouteFound(g: Graph, startId: StationId, endId: StationId, d: Labels, prev: Links,
                   done: set<StationId>, rank: map<StationId, nat>, reached: bool, path: seq<StationId>)
    requires Settled(g, startId, endId, d, prev, done, rank, reached)
    requires path == [] <==> endId == ""
    requires path != [] ==> path[|path| - 1] == endId && Chain(prev, path) && PrevOf(prev, path[0]) == None
    requires "" !in g && Reachable(g, startId, endId)
    ensures path != [] && path[0] == startId
  {
    var w :| IsWalk(g, w) && w[0] == startId && w[|w| - 1] == endId;
    assert endId in g;
    ChainInGraph(g, d, prev, done, rank, path);
    ChainIsWalk(g, d, prev, done, rank, path);
    NoEmptyLink(g, d, prev, done, rank, path[0]);
  }

  /** From a station to itself the route is that station alone, at no cost. */
  lemma SameStation(g: Graph, startId: StationId, d: Labels, prev: Links,
                    done: set<StationId>, rank: map<StationId, nat>, reached: bool, path: seq<StationId>)
    requires Settled(g, startId, startId, d, prev, done, rank, reached)
    requires startId != "" && path != []
    requires path[|path| - 1] == startId && Chain(prev, path)
    ensures path == [startId] && d[startId] == Fin(0.0)
  {
    ChainLast(prev, path);
  }

  /** The last link of a chain of more than one station. */
  lemma ChainLast(prev: Links, path: seq<StationId>)
    requires Chain(prev, path)
    ensures |path| > 1 ==> path[|path| - 1] in prev && prev[path[|path| - 1]] == Some(path[|path| - 2])
  {
  }

  /** When no station has the empty id, a link names a station and `|| null` leaves it unchanged. */
  lemma NoEmptyLink(g: Graph, d: Labels, prev: Links, done: set<StationId>, rank: map<StationId, nat>, v: StationId)
    requires Tree(g, d, prev, done, rank) && "" !in g && v in prev
    ensures OrNull(prev[v]) == prev[v]
  {
  }

  /** Every station of a chain of links that ends in the graph is in the graph. */
  lemma ChainInGraph(g: Graph, d: Labels, prev: Links, done: set<StationId>, rank: map<StationId, nat>,
                     path: seq<StationId>)
    requires Tree(g, d, prev, done, rank) && done <= g.Keys && prev.Keys == g.Keys
    requires |path| >= 1 && path[|path| - 1] in g && Chain(prev, path)
    ensures forall i :: 0 <= i < |path| ==> path[i] in g
  {
    forall i | 0 <= i < |path| ensures path[i] in g {
      if i < |path| - 1 {
        assert prev[path[i + 1]] == Some(path[i]);
      }
    }
  }

  /** Every station of the graph starts at `Infinity` with no predecessor. */
  method InitialLabels(g: Graph) returns (distances: Labels, prev: Links)
    ensures distances.Keys == g.Keys && prev.Keys == g.Keys
    ensures forall v :: v in distances ==> distances[v] == Inf && prev[v] == None
  {
    distances, prev := map[], map[];
    var ids := g.Keys;
    while ids != {}
      invariant ids <= g.Keys
      invariant distances.Keys == g.Keys - ids && prev.Keys == g.Keys - ids
      invariant forall v :: v in distances ==> distances[v] == Inf && prev[v] == None
      decreases |ids|
    {
      var id :| id in ids;
      distances := distances[id := Inf];
      prev := prev[id := None];
      ids := ids - {id};
    }
  }

  /**
   * findDijkstra: a cheapest walk from startId to endId with its cost, or
   * (null, Infinity). The route found begins at the start, ends at the end,
   * follows links of the graph, costs what the labels say and no walk between
   * the two is cheaper; none is found only when no walk exists (or when the
   * graph holds a station with the empty id, on which the walk back stops).
   */
  method FindDijkstra(g: Graph, startId: StationId, endId: StationId) returns (r: SearchResult)
    requires WellFormed(g) && startId in g
    ensures r.path.None? ==> r.distance == Inf
    ensures r.path.Some? ==> var p := r.path.value;
      IsWalk(g, p) && p[0] == startId && p[|p| - 1] == endId && r.distance == PathCost(g, p)
    ensures r.path.Some? ==> forall w :: IsWalk(g, w) && w[0] == startId && w[|w| - 1] == endId ==> Le(r.distance, PathCost(g, w))
    ensures !Reachable(g, startId, endId) ==> r == SearchResult(None, Inf)
    ensures "" !in g && Reachable(g, startId, endId) ==> r.path.Some?
    ensures startId == endId && startId != "" ==> r == SearchResult(Some([startId]), Fin(0.0))
  {
    var distances, prev := InitialLabels(g);
    var pq := new PriorityQueue();
    distances := distances[startId := Fin(0.0)];
    pq.Enqueue(startId, 0.0);
    assert pq.collection == [Entry(startId, 0.0)];
    InitialInv(g, startId, endId, distances, prev, pq.collection);
    ghost var done, rank, reached;
    distances, prev, done, rank, reached := Explore(g, startId, endId, distances, prev, pq);
    r := Finish(g, startId, endId, distances, prev, done, rank, reached);
  }

  /**
   * The main loop of findDijkstra: dequeue, stop at the end, otherwise relax
   * the neighbours of the dequeued station, until the queue is empty.
   */
  method Explore(g: Graph, startId: StationId, endId: StationId, distances0: Labels, prev0: Links, pq: PriorityQueue)
      returns (distances: Labels, prev: Links, ghost done: set<StationId>, ghost rank: map<StationId, nat>,
               ghost reached: bool)
    requires pq.Valid() && Inv(g, startId, endId, distances0, prev0, pq.collection, {}, map[])
    modifies pq
    ensures Settled(g, startId, endId, distances, prev, done, rank, reached)
  {
    distances, prev := distances0, prev0;
    done, rank, reached := {}, map[], false;
    var empty := pq.IsEmpty();
    while !empty
      invariant pq.Valid()
      invariant empty <==> pq.collection == []
      invariant Inv(g, startId, endId, distances, prev, pq.collection, done, rank)
      decreases |g.Keys - done|, |pq.collection|
    {
      var isEnd;
      ghost var measure := (|g.Keys - done|, |pq.collection|);
      distances, prev, isEnd, done, rank := Step(g, startId, endId, distances, prev, pq, done, rank);
      if isEnd {
        reached := true;
        return;
      }
      empty := pq.IsEmpty();
    }
    QueueExhausted(g, startId, endId, distances, prev, done, rank);
  }

  /**
   * One turn of the main loop: dequeue u; if it is the end, stop (the labels
   * are then settled); otherwise relax u's neighbours.
   */
  method Step(g: Graph, startId: StationId, endId: StationId, distances: Labels, prev: Links, pq: PriorityQueue,
              ghost done: set<StationId>, ghost rank: map<StationId, nat>)
      returns (distances': Labels, prev': Links, isEnd: bool, ghost done': set<StationId>,
               ghost rank': map<StationId, nat>)
    requires pq.Valid() && pq.collection != [] && Inv(g, startId, endId, distances, prev, pq.collection, done, rank)
    modifies pq
    ensures pq.Valid()
    ensures isEnd ==> Settled(g, startId, endId, distances', prev', done', rank', true)
    ensures !isEnd ==> Inv(g, startId, endId, distances', prev', pq.collection, done', rank')
    ensures !isEnd ==> |g.Keys - done'| < |g.Keys - done| ||
                       (done' == done && |pq.collection| < |old(pq.collection)|)
  {
    ghost var q := pq.collection;
    var front := pq.Dequeue();
    var u := front.value.element;
    if u == endId {
      EndDequeued(g, startId, endId, distances, prev, q, done, rank);
      return distances, prev, true, done, rank;
    }
    FrontIsMinimal(distances, q, done);
    distances', prev' := RelaxNeighbors(u, g[u].neighbors, distances, prev, pq);
    LoopDone(g, u, distances, prev, q[1..], distances', prev', pq.collection);
    isEnd := false;
    done', rank' := Advance(g, startId, endId, distances, prev, q, done, rank, distances', prev', pq.collection);
  }

  /** After relaxing the dequeued station the invariant holds again, with that station done. */
  lemma Advance(g: Graph, start: StationId, end: StationId, d: Labels, prev: Links, q: seq<Entry>,
                done: set<StationId>, rank: map<StationId, nat>, d': Labels, prev': Links, q': seq<Entry>)
      returns (done': set<StationId>, rank': map<StationId, nat>)
    requires Inv(g, start, end, d, prev, q, done, rank) && q != [] && q[0].element != end
    requires Relaxed(g, q[0].element, d, prev, q[1..], d', prev', q') && Sorted(q')
    ensures Inv(g, start, end, d', prev', q', done', rank')
    ensures |g.Keys - done'| < |g.Keys - done| || (done' == done && |q'| < |q|)
  {
    var u := q[0].element;
    if u in done {
      StaleStep(g, start, end, d, prev, q, done, rank);
      MapsAgree(d', d);
      done', rank' := done, rank;
    } else {
      FreshStep(g, start, end, d, prev, q, done, rank, d', prev', q');
      RemoveOneMore(g.Keys, done, u);
      done', rank' := done + {u}, rank[u := |done|];
    }
  }

  /** The end of findDijkstra: walk back from the end and accept the walk if it reaches the start. */
  method Finish(ghost g: Graph, startId: StationId, endId: StationId, distances: Labels, prev: Links,
                ghost done: set<StationId>, ghost rank: map<StationId, nat>, ghost reached: bool)
      returns (r: SearchResult)
    requires Settled(g, startId, endId, distances, prev, done, rank, reached)
    ensures r.path.None? ==> r.distance == Inf
    ensures r.path.Some? ==> var p := r.path.value;
      IsWalk(g, p) && p[0] == startId && p[|p| - 1] == endId && r.distance == PathCost(g, p)
    ensures r.path.Some? ==> forall w :: IsWalk(g, w) && w[0] == startId && w[|w| - 1] == endId ==> Le(r.distance, PathCost(g, w))
    ensures !Reachable(g, startId, endId) ==> r == SearchResult(None, Inf)
    ensures "" !in g && Reachable(g, startId, endId) ==> r.path.Some?
    ensures startId == endId && startId != "" ==> r == SearchResult(Some([startId]), Fin(0.0))
  {
    var path := ReconstructPath(prev, endId, g, distances, done, rank);
    if |path| > 0 && path[0] == startId {
      r := SearchResult(Some(path), distances[endId]);
    } else {
      r := SearchResult(None, Inf);
    }
    ResultCorrect(g, startId, endId, distances, prev, done, rank, reached, path, r);
  }
}
