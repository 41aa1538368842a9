/**
 * `runPathfinding`: the route through the start, the via stops and the end,
 * stitched together from one shortest-path search per consecutive pair.
 */
module Composer {
  import opened Common
  import opened Network
  import opened Paths
  import opened Search
  import opened Selection

  /** What the page ends up showing after "Find Shortest Path". */
  datatype Outcome =
    | MissingStop                                  // the alert asking for every stop
    | NoPathBetween(from: StationId, to: StationId) // the alert naming the unreachable pair
    | NoResult                                     // every pair was skipped: nothing is published
    | Route(path: seq<StationId>, distance: real)  // the published path result

  /** `[startStationId, ...viaStops.map(v => v.stationId), endStationId]`. */
  function AllStops(s: Selection): (stops: seq<Option<StationId>>)
    ensures |stops| == |s.vias| + 2 && stops[0] == s.start && stops[|stops| - 1] == s.end
    ensures forall k :: 0 <= k < |s.vias| ==> stops[k + 1] == s.vias[k].stationId
  {
    [s.start] + seq(|s.vias|, k requires 0 <= k < |s.vias| => s.vias[k].stationId) + [s.end]
  }

  /** The stops once none of them is falsy, as the `!` assertions of the loop read them. */
  function Ids(stops: seq<Option<StationId>>): (ids: seq<StationId>)
    requires forall k :: 0 <= k < |stops| ==> IsSet(stops[k])
    ensures |ids| == |stops| && forall k :: 0 <= k < |ids| ==> Some(ids[k]) == stops[k] && ids[k] != ""
  {
    seq(|stops|, k requires 0 <= k < |stops| && IsSet(stops[k]) => stops[k].value)
  }

  /**
   * Walk w passes the stops ids in order at the positions pos: the first at
   * its head, the last at its end, the others in between without going back.
   */
  ghost predicate Passes(w: seq<StationId>, ids: seq<StationId>, pos: seq<int>) {
    |ids| >= 1 && |pos| == |ids| && |w| >= 1 && pos[0] == 0 && pos[|pos| - 1] == |w| - 1 &&
    (forall k :: 0 <= k < |pos| ==> 0 <= pos[k] < |w| && w[pos[k]] == ids[k]) &&
    (forall i, j :: 0 <= i <= j < |pos| ==> pos[i] <= pos[j])
  }

  ghost predicate VisitsInOrder(w: seq<StationId>, ids: seq<StationId>) {
    exists pos :: Passes(w, ids, pos)
  }

  /** No walk passing the stops ids in order costs less than d. */
  ghost predicate LowerBound(g: Graph, ids: seq<StationId>, d: real) {
    forall w, pos :: IsWalk(g, w) && Passes(w, ids, pos) ==> Le(Fin(d), PathCost(g, w))
  }

  /** No walk from a to b costs less than d. */
  ghost predicate SegmentBound(g: Graph, a: StationId, b: StationId, d: real) {
    forall w :: IsWalk(g, w) && w[0] == a && w[|w| - 1] == b ==> Le(Fin(d), PathCost(g, w))
  }

  /** Every pair before position n is equal or joined by some walk. */
  ghost predicate PairsReachable(g: Graph, ids: seq<StationId>, n: nat)
    requires n < |ids|
  {
    forall k :: 0 <= k < n ==> ids[k] == ids[k + 1] || Reachable(g, ids[k], ids[k + 1])
  }

  /**
   * Every pair the loop reaches and searches starts at a graph node: a pair of
   * distinct ids all of whose earlier pairs are equal or joinable.
   */
  ghost predicate Searched(g: Graph, ids: seq<StationId>) {
    forall k :: 0 <= k < |ids| - 1 && PairsReachable(g, ids, k) && ids[k] != ids[k + 1] ==> ids[k] in g
  }

  /**
   * The stitched path after the pairs before position n: it passes
   * ids[..n + 1] at pos and costs total; it is still empty exactly while every
   * pair so far was skipped.
   */
  ghost predicate StitchedPath(g: Graph, ids: seq<StationId>, n: nat, path: seq<StationId>, total: real, pos: seq<int>)
    requires n < |ids|
  {
    (path == [] <==> forall k :: 0 <= k <= n ==> ids[k] == ids[0]) &&
    (path == [] ==> total == 0.0) &&
    (path != [] ==> IsWalk(g, path) && PathCost(g, path) == Fin(total) && Passes(path, ids[..n + 1], pos))
  }

  /** What one search of the pair a, b gives: a shortest walk with its cost, or no walk at all. */
  ghost predicate Leg(g: Graph, a: StationId, b: StationId, r: SearchResult) {
    (r.path.Some? ==>
       var p := r.path.value;
       IsWalk(g, p) && p[0] == a && p[|p| - 1] == b && r.distance.Fin? && PathCost(g, p) == r.distance &&
       SegmentBound(g, a, b, r.distance.r)) &&
    (r.path.None? ==> ("" !in g ==> !Reachable(g, a, b)))
  }

  /**
   * `runPathfinding`: reject a falsy stop, then search pair by pair, skip an
   * equal pair, stop at the first pair without a path, and append each other
   * segment without repeating the station where it joins.
   */
  method RunPathfinding(g: Graph, sel: Selection) returns (o: Outcome)
    requires WellFormed(g)
    requires var stops := AllStops(sel);
      (forall k :: 0 <= k < |stops| ==> IsSet(stops[k])) ==> Searched(g, Ids(stops))
    ensures o.MissingStop? <==> exists k :: 0 <= k < |AllStops(sel)| && !IsSet(AllStops(sel)[k])
    ensures !o.MissingStop? ==> RouteSpec(g, Ids(AllStops(sel)), o)
  {
    var allStops := AllStops(sel);
    if exists k :: 0 <= k < |allStops| && !IsSet(allStops[k]) {
      return MissingStop;
    }
    o := Compose(g, Ids(allStops));
  }

  /**
   * What the search loop yields for the stop list ids: a route that passes the
   * stops in order and that no such walk beats; nothing when every pair is
   * equal; or the first unreachable pair.
   */
  ghost predicate RouteSpec(g: Graph, ids: seq<StationId>, o: Outcome)
    requires |ids| >= 2
  {
    !o.MissingStop? &&
    (o.Route? ==>
       IsWalk(g, o.path) && o.path[0] == ids[0] && o.path[|o.path| - 1] == ids[|ids| - 1] &&
       PathCost(g, o.path) == Fin(o.distance) && VisitsInOrder(o.path, ids) &&
       (forall w :: IsWalk(g, w) && VisitsInOrder(w, ids) ==> Le(Fin(o.distance), PathCost(g, w)))) &&
    (o.NoResult? <==> forall k :: 0 <= k < |ids| ==> ids[k] == ids[0]) &&
    (o.NoPathBetween? ==>
       exists k :: 0 <= k < |ids| - 1 && ids[k] == o.from && ids[k + 1] == o.to && o.from != o.to &&
         PairsReachable(g, ids, k) && ("" !in g ==> !Reachable(g, o.from, o.to))) &&
    ("" !in g && PairsReachable(g, ids, |ids| - 1) ==> !o.NoPathBetween?)
  }

  /** `findDijkstra` for one pair of the loop. */
  method SearchSegment(g: Graph, a: StationId, b: StationId) returns (r: SearchResult)
    requires WellFormed(g) && a in g
    ensures Leg(g, a, b, r)
  {
    r := FindDijkstra(g, a, b);
    if r.path.Some? {
      WalkCostFinite(g, r.path.value);
    }
  }

  /** The loop invariant of `runPathfinding` after the pairs before position n. */
  ghost predicate Progress(g: Graph, ids: seq<StationId>, n: nat, path: seq<StationId>, total: real, pos: seq<int>)
    requires n < |ids|
  {
    StitchedPath(g, ids, n, path, total, pos) && PairsReachable(g, ids, n) && LowerBound(g, ids[..n + 1], total)
  }

  /** The loop of `runPathfinding` over the consecutive pairs of ids. */
  method Compose(g: Graph, ids: seq<StationId>) returns (o: Outcome)
    requires WellFormed(g) && |ids| >= 2
    requires Searched(g, ids)
    ensures RouteSpec(g, ids, o)
  {
    var totalPath: seq<StationId> := [];
    var totalDistance: real := 0.0;
    ghost var pos: seq<int> := [];
    StartBound(g, ids);
    var i := 0;
    while i < |ids| - 1
      invariant 0 <= i <= |ids| - 1
      invariant Progress(g, ids, i, totalPath, totalDistance, pos)
    {
      var blocked;
      blocked, totalPath, totalDistance, pos := JoinSegment(g, ids, i, totalPath, totalDistance, pos);
      if blocked {
        return NoPathBetween(ids[i], ids[i + 1]);
      }
      i := i + 1;
    }
    if |totalPath| > 0 {
      o := Route(totalPath, totalDistance);
    } else {
      o := NoResult;
    }
    Finished(g, ids, totalPath, totalDistance, pos, o);
  }

  /**
   * One turn of the loop: skip an equal pair, or search it and append the
   * walk found; `blocked` when the search finds none.
   */
  method JoinSegment(g: Graph, ids: seq<StationId>, i: nat, totalPath: seq<StationId>, totalDistance: real, ghost pos: seq<int>)
      returns (blocked: bool, totalPath': seq<StationId>, totalDistance': real, ghost pos': seq<int>)
    requires WellFormed(g) && i + 1 < |ids| && (ids[i] != ids[i + 1] ==> ids[i] in g)
    requires Progress(g, ids, i, totalPath, totalDistance, pos)
    ensures blocked ==> RouteSpec(g, ids, NoPathBetween(ids[i], ids[i + 1]))
    ensures !blocked ==> Progress(g, ids, i + 1, totalPath', totalDistance', pos')
    ensures ids[i] == ids[i + 1] ==> !blocked && totalPath' == totalPath && totalDistance' == totalDistance
    ensures ids[i] != ids[i + 1] && !blocked ==>
      exists p, c :: IsWalk(g, p) && p[0] == ids[i] && p[|p| - 1] == ids[i + 1] && PathCost(g, p) == Fin(c) &&
        SegmentBound(g, ids[i], ids[i + 1], c) &&
        totalPath' == (if |totalPath| == 0 then p else totalPath + p[1..]) && totalDistance' == totalDistance + c
  {
    var segmentStartId := ids[i];
    var segmentEndId := ids[i + 1];
    blocked, totalPath', totalDistance', pos' := false, totalPath, totalDistance, pos;
    if segmentStartId == segmentEndId {
      pos' := SkipPair(g, ids, i, totalPath, totalDistance, pos);
      return;
    }
    var r := SearchSegment(g, segmentStartId, segmentEndId);
    if r.path.None? {
      Unreachable(g, ids, i, r);
      return true, totalPath, totalDistance, pos;
    }
    var p := r.path.value;
    pos' := JoinPair(g, ids, i, totalPath, totalDistance, pos, r);
    // the first segment is pushed whole, later ones without their first station
    totalPath' := if |totalPath| == 0 then p else totalPath + p[1..];
    totalDistance' := totalDistance + r.distance.r;
    assert IsWalk(g, p) && PathCost(g, p) == Fin(r.distance.r) && SegmentBound(g, ids[i], ids[i + 1], r.distance.r);
  }

  // ---------------------------------------------------------------- proof of the loop

  /** Before the first pair every walk through ids[0] costs at least 0. */
  lemma StartBound(g: Graph, ids: seq<StationId>)
    requires WellFormed(g) && |ids| >= 1
    ensures Progress(g, ids, 0, [], 0.0, [])
  {
    forall w, pos | IsWalk(g, w) && Passes(w, ids[..1], pos) ensures Le(Fin(0.0), PathCost(g, w)) {
      WalkCostFinite(g, w);
    }
  }

  /** A walk passing ids[..n + 2] splits where it passes ids[n]. */
  lemma PassesCut(w: seq<StationId>, ids: seq<StationId>, n: nat, pos: seq<int>)
    requires n + 1 < |ids| && Passes(w, ids[..n + 2], pos)
    ensures 0 <= pos[n] < |w| && Passes(w[..pos[n] + 1], ids[..n + 1], pos[..n + 1])
    ensures w[pos[n]] == ids[n] && w[|w| - 1] == ids[n + 1]
  {
    var c := pos[n];
    var q := pos[..n + 1];
    forall k | 0 <= k < |q| ensures 0 <= q[k] < |w[..c + 1]| && w[..c + 1][q[k]] == ids[..n + 1][k] {
      assert q[k] == pos[k] <= c;
      assert ids[..n + 1][k] == ids[..n + 2][k];
    }
  }

  /** One walk through ids[..n + 2] costs at least the bound so far plus the pair's bound. */
  lemma BoundOne(g: Graph, ids: seq<StationId>, n: nat, total: real, d: real, w: seq<StationId>, pos: seq<int>)
    requires WellFormed(g) && n + 1 < |ids|
    requires LowerBound(g, ids[..n + 1], total) && SegmentBound(g, ids[n], ids[n + 1], d)
    requires IsWalk(g, w) && Passes(w, ids[..n + 2], pos)
    ensures Le(Fin(total + d), PathCost(g, w))
  {
    var c := pos[n];
    PassesCut(w, ids, n, pos);
    SplitCost(g, w, c);
    var head, tail := w[..c + 1], w[c..];
    assert Le(Fin(total), PathCost(g, head));
    assert tail[0] == ids[n] && tail[|tail| - 1] == ids[n + 1];
    assert Le(Fin(d), PathCost(g, tail));
  }

  /** Extending the bound over one more pair whose own walks cost at least d. */
  lemma BoundStep(g: Graph, ids: seq<StationId>, n: nat, total: real, d: real)
    requires WellFormed(g) && n + 1 < |ids|
    requires LowerBound(g, ids[..n + 1], total) && SegmentBound(g, ids[n], ids[n + 1], d)
    ensures LowerBound(g, ids[..n + 2], total + d)
  {
    var through := ids[..n + 2];
    forall w, pos | IsWalk(g, w) && Passes(w, through, pos) ensures Le(Fin(total + d), PathCost(g, w)) {
      BoundOne(g, ids, n, total, d, w, pos);
    }
  }

  /** Between two equal stops every walk costs at least 0. */
  lemma EqualPairBound(g: Graph, a: StationId)
    requires WellFormed(g)
    ensures SegmentBound(g, a, a, 0.0)
  {
    forall w | IsWalk(g, w) && w[0] == a && w[|w| - 1] == a ensures Le(Fin(0.0), PathCost(g, w)) {
      WalkCostFinite(g, w);
    }
  }

  /** The stop of a skipped pair sits where the path already ends. */
  lemma SkipPasses(ids: seq<StationId>, n: nat, path: seq<StationId>, pos: seq<int>) returns (pos': seq<int>)
    requires n + 1 < |ids| && ids[n] == ids[n + 1] && Passes(path, ids[..n + 1], pos)
    ensures Passes(path, ids[..n + 2], pos')
  {
    pos' := pos + [|path| - 1];
    forall k | 0 <= k < |pos'| ensures 0 <= pos'[k] < |path| && path[pos'[k]] == ids[..n + 2][k] {
      if k < n + 1 { assert pos'[k] == pos[k] && ids[..n + 2][k] == ids[..n + 1][k]; }
    }
  }

  /** An equal pair is skipped: path, total and reachability carry over, and the bound grows by 0. */
  lemma SkipPair(g: Graph, ids: seq<StationId>, n: nat, path: seq<StationId>, total: real, pos: seq<int>)
      returns (pos': seq<int>)
    requires WellFormed(g) && n + 1 < |ids| && ids[n] == ids[n + 1]
    requires Progress(g, ids, n, path, total, pos)
    ensures Progress(g, ids, n + 1, path, total, pos')
  {
    EqualPairBound(g, ids[n]);
    BoundStep(g, ids, n, total, 0.0);
    assert total + 0.0 == total;
    pos' := pos;
    if path != [] {
      pos' := SkipPasses(ids, n, path, pos);
    }
  }

  /** The first segment found: the stitched path is that segment, and all earlier stops sit at its head. */
  lemma FirstSegment(ids: seq<StationId>, n: nat, p: seq<StationId>) returns (pos': seq<int>)
    requires n + 1 < |ids| && |p| >= 1 && p[0] == ids[n] && p[|p| - 1] == ids[n + 1]
    requires forall k :: 0 <= k <= n ==> ids[k] == ids[0]
    ensures Passes(p, ids[..n + 2], pos')
  {
    pos' := seq(n + 1, k => 0) + [|p| - 1];
    forall k | 0 <= k < |pos'| ensures 0 <= pos'[k] < |p| && p[pos'[k]] == ids[..n + 2][k] {
      if k <= n { assert ids[k] == ids[0] == ids[n]; }
    }
  }

  /** A later segment: its stops move to their place behind the path found so far. */
  lemma LaterSegment(ids: seq<StationId>, n: nat, path: seq<StationId>, pos: seq<int>, p: seq<StationId>)
      returns (pos': seq<int>)
    requires n + 1 < |ids| && |p| >= 1 && |path| >= 1 && p[0] == ids[n] && p[|p| - 1] == ids[n + 1]
    requires Passes(path, ids[..n + 1], pos)
    ensures Passes(path + p[1..], ids[..n + 2], pos')
  {
    var w := path + p[1..];
    pos' := pos + [|w| - 1];
    assert w[|w| - 1] == ids[n + 1] by {
      if |p| == 1 { assert w[|w| - 1] == path[|path| - 1] == ids[n] == p[0]; }
    }
    forall k | 0 <= k < |pos'| ensures 0 <= pos'[k] < |w| && w[pos'[k]] == ids[..n + 2][k] {
      if k < n + 1 { assert pos'[k] == pos[k] && ids[..n + 2][k] == ids[..n + 1][k]; }
    }
  }

  /** The stitched path grows by the walk the search found for the pair. */
  lemma JoinPath(g: Graph, ids: seq<StationId>, n: nat, path: seq<StationId>, total: real, pos: seq<int>,
                 p: seq<StationId>, d: real) returns (pos': seq<int>)
    requires n + 1 < |ids| && ids[n] != ids[n + 1]
    requires StitchedPath(g, ids, n, path, total, pos)
    requires IsWalk(g, p) && p[0] == ids[n] && p[|p| - 1] == ids[n + 1] && PathCost(g, p) == Fin(d)
    ensures StitchedPath(g, ids, n + 1, if |path| == 0 then p else path + p[1..], total + d, pos')
  {
    if path == [] {
      pos' := FirstSegment(ids, n, p);
      assert 0.0 + d == d;
    } else {
      StitchCost(g, path, p);
      pos' := LaterSegment(ids, n, path, pos, p);
    }
  }

  /** A pair joined by a shortest walk extends the stitched path, the reachable pairs and the bound. */
  lemma JoinPair(g: Graph, ids: seq<StationId>, n: nat, path: seq<StationId>, total: real, pos: seq<int>,
                 r: SearchResult) returns (pos': seq<int>)
    requires WellFormed(g) && n + 1 < |ids| && ids[n] != ids[n + 1]
    requires Progress(g, ids, n, path, total, pos)
    requires r.path.Some? && Leg(g, ids[n], ids[n + 1], r)
    ensures Progress(g, ids, n + 1, if |path| == 0 then r.path.value else path + r.path.value[1..], total + r.distance.r, pos')
  {
    var p := r.path.value;
    pos' := JoinPath(g, ids, n, path, total, pos, p, r.distance.r);
    BoundStep(g, ids, n, total, r.distance.r);
    assert Reachable(g, ids[n], ids[n + 1]);
    PairsStep(g, ids, n);
  }

  lemma PairsStep(g: Graph, ids: seq<StationId>, n: nat)
    requires n + 1 < |ids| && PairsReachable(g, ids, n)
    requires ids[n] == ids[n + 1] || Reachable(g, ids[n], ids[n + 1])
    ensures PairsReachable(g, ids, n + 1)
  {
  }

  /** A pair the search cannot join ends the loop with that pair reported. */
  lemma Unreachable(g: Graph, ids: seq<StationId>, n: nat, r: SearchResult)
    requires n + 1 < |ids| && ids[n] != ids[n + 1]
    requires PairsReachable(g, ids, n) && r.path.None? && Leg(g, ids[n], ids[n + 1], r)
    ensures RouteSpec(g, ids, NoPathBetween(ids[n], ids[n + 1]))
  {
    assert ("" !in g ==> !Reachable(g, ids[n], ids[n + 1]));
  }

  /** After the last pair the outcome is the stitched path, or nothing when every pair was skipped. */
  lemma Finished(g: Graph, ids: seq<StationId>, path: seq<StationId>, total: real, pos: seq<int>, o: Outcome)
    requires |ids| >= 2 && Progress(g, ids, |ids| - 1, path, total, pos)
    requires o == if |path| > 0 then Route(path, total) else NoResult
    ensures RouteSpec(g, ids, o)
  {
    assert ids[..|ids|] == ids;
    if o.Route? {
      assert VisitsInOrder(path, ids);
      forall w | IsWalk(g, w) && VisitsInOrder(w, ids) ensures Le(Fin(total), PathCost(g, w)) {
        var q :| Passes(w, ids, q);
      }
    }
  }
}
