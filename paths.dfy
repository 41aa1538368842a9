/**
 * Distances with JavaScript's `Infinity`, the cost of a link between two
 * stations, walks through the network and their total cost.
 */
module Paths {
  import opened Common
  import opened Network

  /** A distance label: a finite number of km, or `Infinity`. */
  datatype Ext = Fin(r: real) | Inf

  /** `a <= b` on labels; every label is at most `Infinity`. */
  predicate Le(a: Ext, b: Ext) {
    b.Inf? || (a.Fin? && a.r <= b.r)
  }

  /** `a < b` on labels, as JavaScript compares a finite number with `Infinity`. */
  predicate Lt(a: Ext, b: Ext) {
    a.Fin? && (b.Inf? || a.r < b.r)
  }

  function Add(a: Ext, b: Ext): Ext {
    if a.Fin? && b.Fin? then Fin(a.r + b.r) else Inf
  }

  function Min(a: Ext, b: Ext): Ext {
    if Le(a, b) then a else b
  }

  /**
   * The cheapest entry for station v in an adjacency list, `Infinity` when the
   * list has none (a station can be listed twice when a connection is repeated).
   */
  function MinCost(ns: seq<Neighbor>, v: StationId): Ext {
    if ns == [] then Inf
    else
      var n := |ns| - 1;
      var rest := MinCost(ns[..n], v);
      if ns[n].id == v then Min(rest, Fin(ns[n].distance)) else rest
  }

  /** MinCost is finite exactly when v is listed, is at most every entry for v, and is one of them. */
  lemma {:induction false} MinCostSpec(ns: seq<Neighbor>, v: StationId)
    ensures MinCost(ns, v).Fin? <==> exists k :: 0 <= k < |ns| && ns[k].id == v
    ensures forall k :: 0 <= k < |ns| && ns[k].id == v ==> Le(MinCost(ns, v), Fin(ns[k].distance))
    ensures MinCost(ns, v).Fin? ==> exists k :: 0 <= k < |ns| && ns[k].id == v && MinCost(ns, v).r == ns[k].distance
  {
    if ns != [] {
      var n := |ns| - 1;
      MinCostSpec(ns[..n], v);
      assert forall k :: 0 <= k < n ==> ns[..n][k] == ns[k];
    }
  }

  /** The cost of going from u straight to v: its cheapest adjacency entry. */
  function EdgeCost(g: Graph, u: StationId, v: StationId): Ext
    requires u in g
  {
    MinCost(g[u].neighbors, v)
  }

  /** In a well-formed graph a link costs at least nothing and reaches a station of the graph. */
  lemma EdgeCostNonNegative(g: Graph, u: StationId, v: StationId)
    requires WellFormed(g) && u in g
    ensures EdgeCost(g, u, v).Fin? ==> EdgeCost(g, u, v).r >= 0.0 && v in g
  {
    MinCostSpec(g[u].neighbors, v);
  }

  /** A walk: a non-empty list of stations of the graph, each linked to the next. */
  ghost predicate IsWalk(g: Graph, w: seq<StationId>) {
    |w| >= 1 &&
    (forall i :: 0 <= i < |w| ==> w[i] in g) &&
    (forall i :: 0 < i < |w| ==> EdgeCost(g, w[i - 1], w[i]).Fin?)
  }

  /** The total cost of going along w, link after link. */
  ghost function PathCost(g: Graph, w: seq<StationId>): Ext
    requires forall i :: 0 <= i < |w| ==> w[i] in g
  {
    if |w| <= 1 then Fin(0.0)
    else
      var n := |w| - 1;
      Add(PathCost(g, w[..n]), EdgeCost(g, w[n - 1], w[n]))
  }

  /** There is a walk from a to b. */
  ghost predicate Reachable(g: Graph, a: StationId, b: StationId) {
    exists w :: IsWalk(g, w) && w[0] == a && w[|w| - 1] == b
  }

  /** In a well-formed graph a walk has a finite, non-negative cost. */
  lemma {:induction false} WalkCostFinite(g: Graph, w: seq<StationId>)
    requires WellFormed(g) && IsWalk(g, w)
    ensures PathCost(g, w).Fin? && PathCost(g, w).r >= 0.0
  {
    var n := |w| - 1;
    if n > 0 {
      assert IsWalk(g, w[..n]);
      WalkCostFinite(g, w[..n]);
      EdgeCostNonNegative(g, w[n - 1], w[n]);
    }
  }

  /** Following walk a and then walk b from a's last station is a walk. */
  lemma StitchWalk(g: Graph, a: seq<StationId>, b: seq<StationId>)
    requires IsWalk(g, a) && IsWalk(g, b) && a[|a| - 1] == b[0]
    ensures IsWalk(g, a + b[1..])
  {
    var w := a + b[1..];
    forall i | 0 <= i < |w| ensures w[i] in g {
      if i >= |a| { assert w[i] == b[i - |a| + 1]; }
    }
    forall i | 0 < i < |w| ensures EdgeCost(g, w[i - 1], w[i]).Fin? {
      if i < |a| {
        assert w[i - 1] == a[i - 1] && w[i] == a[i];
      } else if i == |a| {
        assert w[i - 1] == b[0] && w[i] == b[1];
      } else {
        assert w[i - 1] == b[i - |a|] && w[i] == b[i - |a| + 1];
      }
    }
  }

  /**
   * Stitching: following walk a and then walk b from a's last station costs
   * the cost of a plus the cost of b.
   */
  lemma {:induction false} StitchCost(g: Graph, a: seq<StationId>, b: seq<StationId>)
    requires IsWalk(g, a) && IsWalk(g, b) && a[|a| - 1] == b[0]
    ensures IsWalk(g, a + b[1..])
    ensures PathCost(g, a + b[1..]) == Add(PathCost(g, a), PathCost(g, b))
    decreases |b|
  {
    StitchWalk(g, a, b);
    var w := a + b[1..];
    if |b| == 1 {
      assert w == a;
    } else {
      var n := |b| - 1;
      var b' := b[..n];
      assert IsWalk(g, b');
      StitchCost(g, a, b');
      var w' := a + b'[1..];
      assert w[..|w| - 1] == w';
      assert w[|w| - 1] == b[n];
      assert w[|w| - 2] == b[n - 1] by {
        if n == 1 { assert w[|w| - 2] == a[|a| - 1]; }
      }
      var e := EdgeCost(g, b[n - 1], b[n]);
      assert PathCost(g, w) == Add(PathCost(g, w'), e);
      assert PathCost(g, b) == Add(PathCost(g, b'), e);
      AddAssoc(PathCost(g, a), PathCost(g, b'), e);
    }
  }

  lemma AddAssoc(x: Ext, y: Ext, z: Ext)
    ensures Add(Add(x, y), z) == Add(x, Add(y, z))
  {
  }

  /** Cutting a walk at position k gives two walks whose costs add up to the whole. */
  lemma SplitCost(g: Graph, w: seq<StationId>, k: nat)
    requires IsWalk(g, w) && k < |w|
    ensures IsWalk(g, w[..k + 1]) && IsWalk(g, w[k..])
    ensures PathCost(g, w) == Add(PathCost(g, w[..k + 1]), PathCost(g, w[k..]))
  {
    assert IsWalk(g, w[..k + 1]);
    assert IsWalk(g, w[k..]);
    StitchCost(g, w[..k + 1], w[k..]);
    assert w[..k + 1] + w[k..][1..] == w;
  }
}
