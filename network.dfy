/**
 * The network model: station records, the undirected connection list and the
 * weighted adjacency map the route planner builds from them once per session.
 */
module Network {
  import opened Common

  datatype Station = Station(id: StationId, name: string, line: string, lat: real, lon: real, interchange: bool)

  /** An undirected link `[id1, id2]` between two stations. */
  type Connection = (StationId, StationId)

  /** One adjacency entry: the station at the far end and the weight of the link in km. */
  datatype Neighbor = Neighbor(id: StationId, distance: real)

  datatype GraphNode = GraphNode(station: Station, neighbors: seq<Neighbor>)

  type Graph = map<StationId, GraphNode>

  /**
   * The great-circle distance in km between (lat1, lon1) and (lat2, lon2).
   * The floating-point trigonometry is not modelled; all the model relies on is
   * that the distance is never negative.
   */
  type GeoDistance = f: (real, real, real, real) -> real
    | forall lat1, lon1, lat2, lon2 :: f(lat1, lon1, lat2, lon2) >= 0.0
    witness (lat1: real, lon1: real, lat2: real, lon2: real) => 0.0

  /** Extra cost of a link between two different lines. */
  const TransferPenalty: real := 0.5

  /** Cost of a link between two distinct same-line stations at the same coordinates. */
  const CoincidentEpsilon: real := 0.01

  function Geo(geo: GeoDistance, s1: Station, s2: Station): real {
    geo(s1.lat, s1.lon, s2.lat, s2.lon)
  }

  /**
   * The weight of the link between s1 and s2: never below the geographic
   * distance, and strictly positive between two distinct stations.
   */
  function EdgeWeight(geo: GeoDistance, s1: Station, s2: Station): (w: real)
    ensures w >= Geo(geo, s1, s2) >= 0.0
    ensures s1.id != s2.id ==> w > 0.0
    ensures s1.line != s2.line ==> w == Geo(geo, s1, s2) + TransferPenalty
  {
    var base := Geo(geo, s1, s2);
    if s1.line != s2.line then base + TransferPenalty
    else if base == 0.0 && s1.id != s2.id then CoincidentEpsilon
    else base
  }

  /** `new Map(stations.map(s => [s.id, s]))`: a later record with the same id replaces an earlier one. */
  function Catalog(stations: seq<Station>): (m: map<StationId, Station>)
    ensures forall i :: 0 <= i < |stations| ==> stations[i].id in m
    ensures forall k :: k in m ==> m[k].id == k
  {
    if stations == [] then map[]
    else
      var n := |stations| - 1;
      Catalog(stations[..n])[stations[n].id := stations[n]]
  }

  /** The record kept for an id is the last one in the list that carries it. */
  lemma {:induction false} CatalogKeepsLast(stations: seq<Station>, i: nat)
    requires i < |stations|
    requires forall j :: i < j < |stations| ==> stations[j].id != stations[i].id
    ensures Catalog(stations)[stations[i].id] == stations[i]
  {
    var n := |stations| - 1;
    if i < n {
      CatalogKeepsLast(stations[..n], i);
    }
  }

  /** Both endpoints of the connection are known stations. */
  predicate Accepted(m: map<StationId, Station>, c: Connection) {
    c.0 in m && c.1 in m
  }

  /**
   * The neighbour list of station `k` after the connections `cs` have been
   * processed in order: an accepted connection (a, b) contributes the entry
   * b to a's list and then the entry a to b's list, with one common weight.
   */
  function NeighborsOf(m: map<StationId, Station>, cs: seq<Connection>, geo: GeoDistance, k: StationId): seq<Neighbor>
  {
    if cs == [] then []
    else
      var n := |cs| - 1;
      var c := cs[n];
      var rest := NeighborsOf(m, cs[..n], geo, k);
      if Accepted(m, c) then
        var w := EdgeWeight(geo, m[c.0], m[c.1]);
        rest + (if c.0 == k then [Neighbor(c.1, w)] else []) + (if c.1 == k then [Neighbor(c.0, w)] else [])
      else rest
  }

  /** Every station id with its record and the neighbours the connections `cs` give it. */
  function NodesAfter(m: map<StationId, Station>, cs: seq<Connection>, geo: GeoDistance): Graph {
    map k | k in m :: GraphNode(m[k], NeighborsOf(m, cs, geo, k))
  }

  function EmptyNodes(m: map<StationId, Station>): Graph {
    map k | k in m :: GraphNode(m[k], [])
  }

  /** The adjacency map the planner builds: one node per station id. */
  function NetworkGraph(stations: seq<Station>, cs: seq<Connection>, geo: GeoDistance): Graph {
    NodesAfter(Catalog(stations), cs, geo)
  }

  /** The two pushes of a connection (a, b) of weight w: b onto a's list, then a onto b's list. */
  function Link(g: Graph, a: StationId, b: StationId, w: real): Graph
    requires a in g && b in g
  {
    var g1 := g[a := g[a].(neighbors := g[a].neighbors + [Neighbor(b, w)])];
    g1[b := g1[b].(neighbors := g1[b].neighbors + [Neighbor(a, w)])]
  }

  /** One step of the connection loop: the two pushes of an accepted connection, nothing for a skipped one. */
  lemma NodesAfterStep(m: map<StationId, Station>, cs: seq<Connection>, geo: GeoDistance, g: Graph)
    requires cs != []
    requires var n := |cs| - 1; var c := cs[n]; var g0 := NodesAfter(m, cs[..n], geo);
      if Accepted(m, c) then g == Link(g0, c.0, c.1, EdgeWeight(geo, m[c.0], m[c.1])) else g == g0
    ensures g == NodesAfter(m, cs, geo)
  {
    var n := |cs| - 1;
    var c := cs[n];
    var g' := NodesAfter(m, cs, geo);
    assert g.Keys == g'.Keys;
    forall k | k in g ensures g[k] == g'[k] {
      assert g'[k].neighbors == NeighborsOf(m, cs, geo, k);
    }
  }

  /** Every adjacency entry names a station of the graph and has a non-negative weight. */
  ghost predicate WellFormed(g: Graph) {
    forall u :: u in g ==>
      forall k :: 0 <= k < |g[u].neighbors| ==>
        g[u].neighbors[k].id in g && g[u].neighbors[k].distance >= 0.0
  }

  /** Every entry v -> w in u's list is matched by an entry u -> w in v's list. */
  ghost predicate Symmetric(g: Graph) {
    forall u :: u in g ==>
      forall k :: 0 <= k < |g[u].neighbors| ==>
        g[u].neighbors[k].id in g && Neighbor(u, g[u].neighbors[k].distance) in g[g[u].neighbors[k].id].neighbors
  }

  /** A connection with an unknown endpoint leaves every neighbour list as it was. */
  lemma SkippedConnection(m: map<StationId, Station>, cs: seq<Connection>, geo: GeoDistance, c: Connection)
    requires !Accepted(m, c)
    ensures NodesAfter(m, cs + [c], geo) == NodesAfter(m, cs, geo)
  {
    assert (cs + [c])[..|cs|] == cs;
  }

  /**
   * An accepted connection (a, b) appends exactly the entry b to a's list and
   * the entry a to b's list, both with its weight, and changes no other list.
   */
  lemma AcceptedConnection(m: map<StationId, Station>, cs: seq<Connection>, geo: GeoDistance, c: Connection, k: StationId)
    requires Accepted(m, c)
    ensures var w := EdgeWeight(geo, m[c.0], m[c.1]);
      NeighborsOf(m, cs + [c], geo, k) ==
        NeighborsOf(m, cs, geo, k) + (if c.0 == k then [Neighbor(c.1, w)] else []) + (if c.1 == k then [Neighbor(c.0, w)] else [])
  {
    assert (cs + [c])[..|cs|] == cs;
  }

  /** Each accepted connection (a, b) gives a the entry b and b the entry a, with one common weight. */
  lemma {:induction false} ConnectionGivesBothEntries(m: map<StationId, Station>, cs: seq<Connection>, geo: GeoDistance, j: nat)
    requires j < |cs| && Accepted(m, cs[j])
    ensures var w := EdgeWeight(geo, m[cs[j].0], m[cs[j].1]);
      Neighbor(cs[j].1, w) in NeighborsOf(m, cs, geo, cs[j].0) && Neighbor(cs[j].0, w) in NeighborsOf(m, cs, geo, cs[j].1)
  {
    var n := |cs| - 1;
    if j < n {
      ConnectionGivesBothEntries(m, cs[..n], geo, j);
      assert cs[..n][j] == cs[j];
    }
  }

  /** Every entry of a neighbour list comes from an accepted connection at that station. */
  lemma {:induction false} EntryFromConnection(m: map<StationId, Station>, cs: seq<Connection>, geo: GeoDistance, k: StationId, e: Neighbor)
    requires e in NeighborsOf(m, cs, geo, k)
    ensures exists j :: 0 <= j < |cs| && Accepted(m, cs[j]) && e.distance == EdgeWeight(geo, m[cs[j].0], m[cs[j].1]) &&
                       ((cs[j].0 == k && cs[j].1 == e.id) || (cs[j].1 == k && cs[j].0 == e.id))
  {
    var n := |cs| - 1;
    var rest := NeighborsOf(m, cs[..n], geo, k);
    if e in rest {
      EntryFromConnection(m, cs[..n], geo, k, e);
      var j :| 0 <= j < n && Accepted(m, cs[..n][j]) && e.distance == EdgeWeight(geo, m[cs[..n][j].0], m[cs[..n][j].1]) &&
               ((cs[..n][j].0 == k && cs[..n][j].1 == e.id) || (cs[..n][j].1 == k && cs[..n][j].0 == e.id));
      assert cs[..n][j] == cs[j];
    } else {
      assert 0 <= n < |cs| && Accepted(m, cs[n]);
    }
  }

  /** The built adjacency map lists every station and its own record. */
  lemma NetworkNodes(stations: seq<Station>, cs: seq<Connection>, geo: GeoDistance)
    ensures var g := NetworkGraph(stations, cs, geo);
      (forall i :: 0 <= i < |stations| ==> stations[i].id in g) &&
      (forall k :: k in g ==> g[k].station.id == k)
  {
  }

  /** Links are undirected: each entry u -> v with weight w has the entry v -> u with the same weight. */
  lemma NetworkSymmetric(stations: seq<Station>, cs: seq<Connection>, geo: GeoDistance)
    ensures Symmetric(NetworkGraph(stations, cs, geo))
  {
    var m := Catalog(stations);
    var g := NetworkGraph(stations, cs, geo);
    forall u, k | u in g && 0 <= k < |g[u].neighbors|
      ensures g[u].neighbors[k].id in g && Neighbor(u, g[u].neighbors[k].distance) in g[g[u].neighbors[k].id].neighbors
    {
      var e := g[u].neighbors[k];
      assert e in NeighborsOf(m, cs, geo, u);
      EntryFromConnection(m, cs, geo, u, e);
      var j :| 0 <= j < |cs| && Accepted(m, cs[j]) && e.distance == EdgeWeight(geo, m[cs[j].0], m[cs[j].1]) &&
               ((cs[j].0 == u && cs[j].1 == e.id) || (cs[j].1 == u && cs[j].0 == e.id));
      ConnectionGivesBothEntries(m, cs, geo, j);
    }
  }

  /**
   * Every entry names a station of the graph, has a non-negative weight, and a
   * strictly positive one when it links two distinct stations.
   */
  lemma NetworkWellFormed(stations: seq<Station>, cs: seq<Connection>, geo: GeoDistance)
    ensures WellFormed(NetworkGraph(stations, cs, geo))
    ensures var g := NetworkGraph(stations, cs, geo);
      forall u, k :: u in g && 0 <= k < |g[u].neighbors| && g[u].neighbors[k].id != u ==> g[u].neighbors[k].distance > 0.0
  {
    var m := Catalog(stations);
    var g := NetworkGraph(stations, cs, geo);
    forall u, k | u in g && 0 <= k < |g[u].neighbors|
      ensures g[u].neighbors[k].id in g && g[u].neighbors[k].distance >= 0.0
      ensures g[u].neighbors[k].id != u ==> g[u].neighbors[k].distance > 0.0
    {
      var e := g[u].neighbors[k];
      assert e in NeighborsOf(m, cs, geo, u);
      EntryFromConnection(m, cs, geo, u, e);
      var j :| 0 <= j < |cs| && Accepted(m, cs[j]) && e.distance == EdgeWeight(geo, m[cs[j].0], m[cs[j].1]) &&
               ((cs[j].0 == u && cs[j].1 == e.id) || (cs[j].1 == u && cs[j].0 == e.id));
    }
  }

  /**
   * One connection (id1, id2): skipped unless both ids are known stations;
   * otherwise the distance between them, plus the transfer penalty across
   * lines, or the small positive weight for distinct stations at one point,
   * is pushed onto both stations' lists.
   */
  method AddConnection(stationMap: map<StationId, Station>, stationGraph: Graph, c: Connection, geo: GeoDistance)
      returns (g: Graph)
    requires stationGraph.Keys == stationMap.Keys
    ensures if Accepted(stationMap, c) then g == Link(stationGraph, c.0, c.1, EdgeWeight(geo, stationMap[c.0], stationMap[c.1]))
            else g == stationGraph
  {
    var (id1, id2) := c;
    g := stationGraph;
    if id1 !in stationMap || id2 !in stationMap {
      return;
    }
    var s1, s2 := stationMap[id1], stationMap[id2];
    var distance := geo(s1.lat, s1.lon, s2.lat, s2.lon);
    if s1.line != s2.line {
      distance := distance + TransferPenalty;
    } else if distance == 0.0 && s1.id != s2.id {
      distance := CoincidentEpsilon;
    }
    g := g[id1 := g[id1].(neighbors := g[id1].neighbors + [Neighbor(id2, distance)])];
    g := g[id2 := g[id2].(neighbors := g[id2].neighbors + [Neighbor(id1, distance)])];
  }

  /**
   * Builds the station map, the adjacency map and the set of interchange ids
   * from the reference data.
   */
  method BuildNetwork(stations: seq<Station>, connections: seq<Connection>, geo: GeoDistance)
    returns (stationMap: map<StationId, Station>, stationGraph: Graph, interchangeStationIds: set<StationId>)
    ensures stationMap == Catalog(stations)
    ensures stationGraph == NetworkGraph(stations, connections, geo)
    ensures forall id :: id in interchangeStationIds <==> exists i :: 0 <= i < |stations| && stations[i].id == id && stations[i].interchange
  {
    stationMap := Catalog(stations);
    stationGraph := AddStations(stations);
    stationGraph := AddConnections(stationMap, connections, geo, stationGraph);
    interchangeStationIds := set i | 0 <= i < |stations| && stations[i].interchange :: stations[i].id;
  }

  /** One node with no neighbours per station id; a later record replaces an earlier one. */
  method AddStations(stations: seq<Station>) returns (stationGraph: Graph)
    ensures stationGraph == EmptyNodes(Catalog(stations))
  {
    stationGraph := map[];
    var i := 0;
    while i < |stations|
      invariant 0 <= i <= |stations|
      invariant stationGraph == EmptyNodes(Catalog(stations[..i]))
    {
      TakeTake(stations, i);
      stationGraph := stationGraph[stations[i].id := GraphNode(stations[i], [])];
      i := i + 1;
    }
    TakeAll(stations);
  }

  /** Every connection in turn, through `AddConnection`. */
  method AddConnections(stationMap: map<StationId, Station>, connections: seq<Connection>, geo: GeoDistance, g: Graph)
      returns (stationGraph: Graph)
    requires g == EmptyNodes(stationMap)
    ensures stationGraph == NodesAfter(stationMap, connections, geo)
  {
    stationGraph := g;
    var j := 0;
    while j < |connections|
      invariant 0 <= j <= |connections|
      invariant stationGraph == NodesAfter(stationMap, connections[..j], geo)
    {
      TakeTake(connections, j);
      stationGraph := AddConnection(stationMap, stationGraph, connections[j], geo);
      NodesAfterStep(stationMap, connections[..j + 1], geo, stationGraph);
      j := j + 1;
    }
    TakeAll(connections);
  }
}
