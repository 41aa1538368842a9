/**
 * The invariant of the Dijkstra search and the lemmas that carry it from one
 * dequeue to the next. The search keeps, per station, a distance label `d`
 * and a predecessor link `prev`; `done` (ghost) is the set of stations whose
 * neighbours have been relaxed, and `rank` (ghost) the order they were done in.
 */
module SearchState {
  import opened Common
  import opened Network
  import opened Paths
  import opened Queue

  type Labels = map<StationId, Ext>
  type Links = map<StationId, Option<StationId>>

  /** `prev.get(x) || null`. */
  function PrevOf(prev: Links, x: StationId): (r: Option<StationId>)
    ensures r.Some? <==> x in prev && IsSet(prev[x])
    ensures r.Some? ==> prev[x] == r
  {
    if x in prev then OrNull(prev[x]) else None
  }

  /** Every entry names a labelled station and its priority is at least the current label. */
  ghost predicate QueueSound(d: Labels, q: seq<Entry>) {
    forall i :: 0 <= i < |q| ==> q[i].element in d && d[q[i].element].Fin? && d[q[i].element].r <= q[i].priority
  }

  /** Every finitely labelled station not yet done waits in the queue with its current label. */
  ghost predicate Frontier(d: Labels, q: seq<Entry>, done: set<StationId>) {
    forall v :: v in d && v !in done && d[v].Fin? ==> Entry(v, d[v].r) in q
  }

  /** No link out of a done station can improve a label. */
  ghost predicate Closed(g: Graph, d: Labels, done: set<StationId>) {
    forall u :: u in done ==>
      u in g && u in d && d[u].Fin? &&
      forall k :: 0 <= k < |g[u].neighbors| ==>
        g[u].neighbors[k].id in d && Le(d[g[u].neighbors[k].id], Add(d[u], Fin(g[u].neighbors[k].distance)))
  }

  /** Done stations carry labels no larger than those of the others. */
  ghost predicate Ordered(d: Labels, done: set<StationId>) {
    forall s, v :: s in done && v in d && v !in done ==> s in d && Le(d[s], d[v])
  }

  /**
   * A predecessor link u -> v means u is done and v's label is u's plus the
   * cost of the link; among done stations links point to earlier ones.
   */
  ghost predicate Tree(g: Graph, d: Labels, prev: Links, done: set<StationId>, rank: map<StationId, nat>) {
    forall v :: v in prev && prev[v].Some? ==>
      prev[v].value in done && prev[v].value in g && prev[v].value in d && v in d && d[v].Fin? &&
      d[v] == Add(d[prev[v].value], EdgeCost(g, prev[v].value, v)) &&
      (v in done ==> prev[v].value in rank && v in rank && rank[prev[v].value] < rank[v])
  }

  /** The start is labelled 0 and has no predecessor; every other finite label has one. */
  ghost predicate Rooted(d: Labels, prev: Links, start: StationId) {
    start in d && d[start] == Fin(0.0) && start in prev && prev[start] == None &&
    forall v :: v in d && d[v].Fin? ==> d[v].r >= 0.0 && (v != start ==> v in prev && prev[v].Some?)
  }

  ghost predicate Ranked(done: set<StationId>, rank: map<StationId, nat>) {
    rank.Keys == done && forall s :: s in rank ==> rank[s] < |done|
  }

  /** The loop invariant of the search, before each dequeue. */
  ghost predicate Inv(g: Graph, start: StationId, end: StationId, d: Labels, prev: Links, q: seq<Entry>,
                      done: set<StationId>, rank: map<StationId, nat>) {
    WellFormed(g) && start in g && d.Keys == g.Keys && prev.Keys == g.Keys && done <= g.Keys && end !in done &&
    Sorted(q) && QueueSound(d, q) && Frontier(d, q, done) && Closed(g, d, done) && Ordered(d, done) &&
    Tree(g, d, prev, done, rank) && Rooted(d, prev, start) && Ranked(done, rank)
  }

  /**
   * What relaxing every neighbour of u does: each label becomes the smaller of
   * itself and u's label plus the link cost, a strictly improved station gets
   * u as predecessor and a queue entry with its new label, and nothing leaves
   * the queue.
   */
  ghost predicate Relaxed(g: Graph, u: StationId, d: Labels, prev: Links, q: seq<Entry>,
                          d': Labels, prev': Links, q': seq<Entry>) {
    u in g && u in d && d[u].Fin? && d'.Keys == d.Keys && prev'.Keys == prev.Keys && prev.Keys == d.Keys &&
    (forall v :: v in d ==> d'[v] == Min(d[v], Add(d[u], EdgeCost(g, u, v)))) &&
    (forall v :: v in prev ==> prev'[v] == if Lt(Add(d[u], EdgeCost(g, u, v)), d[v]) then Some(u) else prev[v]) &&
    (forall e :: e in q ==> e in q') &&
    (forall e :: e in q' ==> e in q || (e.element in d' && d'[e.element].Fin? && d'[e.element].r <= e.priority)) &&
    (forall v :: v in d && Lt(d'[v], d[v]) ==> Entry(v, d'[v].r) in q') &&
    (d' == d ==> prev' == prev && q' == q)
  }

  /** The invariant holds once the start has been labelled 0 and queued. */
  lemma InitialInv(g: Graph, start: StationId, end: StationId, d: Labels, prev: Links, q: seq<Entry>)
    requires WellFormed(g) && start in g
    requires d.Keys == g.Keys && prev.Keys == g.Keys
    requires forall v :: v in d ==> d[v] == (if v == start then Fin(0.0) else Inf) && prev[v] == None
    requires q == [Entry(start, 0.0)]
    ensures Inv(g, start, end, d, prev, q, {}, map[])
  {
  }

  /** A link out of a done station cannot improve the label at its far end. */
  lemma ClosedEdge(g: Graph, d: Labels, done: set<StationId>, x: StationId, y: StationId)
    requires Closed(g, d, done) && x in done && y in d
    ensures Le(d[y], Add(d[x], EdgeCost(g, x, y)))
  {
    MinCostSpec(g[x].neighbors, y);
  }

  /** The front of the queue carries a label no larger than that of any station not done. */
  lemma FrontIsMinimal(d: Labels, q: seq<Entry>, done: set<StationId>)
    requires Sorted(q) && QueueSound(d, q) && Frontier(d, q, done) && q != []
    ensures q[0].element in d && d[q[0].element].Fin? && d[q[0].element].r <= q[0].priority
    ensures forall v :: v in d && v !in done ==> Le(d[q[0].element], d[v])
  {
    forall v | v in d && v !in done ensures Le(d[q[0].element], d[v]) {
      if d[v].Fin? {
        var i :| 0 <= i < |q| && q[i] == Entry(v, d[v].r);
      }
    }
  }

  /** Dequeuing a stale entry of a done station keeps the invariant, and relaxing it would change nothing. */
  lemma StaleStep(g: Graph, start: StationId, end: StationId, d: Labels, prev: Links, q: seq<Entry>,
                  done: set<StationId>, rank: map<StationId, nat>)
    requires Inv(g, start, end, d, prev, q, done, rank) && q != [] && q[0].element in done
    ensures Inv(g, start, end, d, prev, q[1..], done, rank)
    ensures forall v :: v in d ==> Min(d[v], Add(d[q[0].element], EdgeCost(g, q[0].element, v))) == d[v]
  {
    var u := q[0].element;
    forall v | v in d ensures Min(d[v], Add(d[u], EdgeCost(g, u, v))) == d[v] {
      ClosedEdge(g, d, done, u, v);
    }
    forall v | v in d && v !in done && d[v].Fin? ensures Entry(v, d[v].r) in q[1..] {
      var i :| 0 <= i < |q| && q[i] == Entry(v, d[v].r);
      assert i != 0;
      assert q[1..][i - 1] == q[i];
    }
  }

  /**
   * Relaxing one label: dv' is the smaller of dv and du + c. The label never
   * grows; it changes only when du + c is strictly smaller, and then du was
   * strictly smaller than dv.
   */
  lemma RelaxLabel(du: Ext, dv: Ext, c: Ext, dv': Ext)
    requires du.Fin? && du.r >= 0.0 && (c.Fin? ==> c.r >= 0.0) && dv' == Min(dv, Add(du, c))
    ensures Le(dv', dv)
    ensures Lt(Add(du, c), dv) ==> dv' == Add(du, c) && dv'.Fin? && Lt(du, dv)
    ensures !Lt(Add(du, c), dv) ==> dv' == dv
  {
  }

  /** What relaxing a station not yet done changes, label by label. */
  lemma FreshStepFacts(g: Graph, start: StationId, end: StationId, d: Labels, prev: Links, q: seq<Entry>,
                       done: set<StationId>, rank: map<StationId, nat>, d': Labels, prev': Links, q': seq<Entry>)
    requires Inv(g, start, end, d, prev, q, done, rank) && q != [] && q[0].element !in done
    requires Relaxed(g, q[0].element, d, prev, q[1..], d', prev', q')
    ensures var u := q[0].element;
      d'[u] == d[u] &&
      (forall v :: v in d && v !in done ==> Le(d[u], d[v])) &&
      (forall v :: v in d ==> Le(d'[v], d[v])) &&
      (forall v :: v in d && Lt(Add(d[u], EdgeCost(g, u, v)), d[v]) ==>
         v !in done && v != u && d'[v] == Add(d[u], EdgeCost(g, u, v)) && d'[v].Fin? && prev'[v] == Some(u)) &&
      (forall v :: v in d && !Lt(Add(d[u], EdgeCost(g, u, v)), d[v]) ==> d'[v] == d[v] && prev'[v] == prev[v])
  {
    var u := q[0].element;
    FrontIsMinimal(d, q, done);
    forall v | v in d
      ensures Le(d'[v], d[v])
      ensures Lt(Add(d[u], EdgeCost(g, u, v)), d[v]) ==>
         v !in done && v != u && d'[v] == Add(d[u], EdgeCost(g, u, v)) && d'[v].Fin? && prev'[v] == Some(u)
      ensures !Lt(Add(d[u], EdgeCost(g, u, v)), d[v]) ==> d'[v] == d[v] && prev'[v] == prev[v]
    {
      EdgeCostNonNegative(g, u, v);
      RelaxLabel(d[u], d[v], EdgeCost(g, u, v), d'[v]);
      if v in done {
        assert Le(d[v], d[u]);
      }
    }
  }

  /** The label facts FreshStepFacts establishes, bundled for the lemmas below. */
  ghost predicate StepLabels(g: Graph, u: StationId, d: Labels, prev: Links, done: set<StationId>,
                             d': Labels, prev': Links) {
    WellFormed(g) && u in g && d.Keys == g.Keys && prev.Keys == g.Keys && d[u].Fin? && u !in done &&
    d'.Keys == d.Keys && prev'.Keys == prev.Keys && d'[u] == d[u] &&
    (forall v :: v in d && v !in done ==> Le(d[u], d[v])) &&
    (forall v :: v in d ==> Le(d'[v], d[v])) &&
    (forall v :: v in d && Lt(Add(d[u], EdgeCost(g, u, v)), d[v]) ==>
       v !in done && v != u && d'[v] == Add(d[u], EdgeCost(g, u, v)) && d'[v].Fin? && prev'[v] == Some(u)) &&
    (forall v :: v in d && !Lt(Add(d[u], EdgeCost(g, u, v)), d[v]) ==> d'[v] == d[v] && prev'[v] == prev[v])
  }

  /** Dequeuing and relaxing a station not yet done keeps the invariant, with that station now done. */
  lemma FreshStep(g: Graph, start: StationId, end: StationId, d: Labels, prev: Links, q: seq<Entry>,
                  done: set<StationId>, rank: map<StationId, nat>, d': Labels, prev': Links, q': seq<Entry>)
    requires Inv(g, start, end, d, prev, q, done, rank) && q != [] && q[0].element !in done && q[0].element != end
    requires Relaxed(g, q[0].element, d, prev, q[1..], d', prev', q') && Sorted(q')
    ensures Inv(g, start, end, d', prev', q', done + {q[0].element}, rank[q[0].element := |done|])
  {
    var u := q[0].element;
    FreshStepFacts(g, start, end, d, prev, q, done, rank, d', prev', q');
    assert StepLabels(g, u, d, prev, done, d', prev');
    FreshQueue(u, d, q, done, d', q');
    FreshClosed(g, u, d, prev, done, d', prev');
    FreshTree(g, u, d, prev, done, rank, d', prev');
    FreshOrdered(g, u, d, prev, done, d', prev');
    FreshRooted(g, start, u, d, prev, done, d', prev');
    FreshRanked(u, done, rank);
    assert d'.Keys == g.Keys && prev'.Keys == g.Keys;
  }

  lemma FreshRanked(u: StationId, done: set<StationId>, rank: map<StationId, nat>)
    requires Ranked(done, rank) && u !in done
    ensures Ranked(done + {u}, rank[u := |done|])
  {
    assert |done + {u}| == |done| + 1;
  }

  lemma FreshClosed(g: Graph, u: StationId, d: Labels, prev: Links, done: set<StationId>, d': Labels, prev': Links)
    requires StepLabels(g, u, d, prev, done, d', prev') && Closed(g, d, done)
    requires forall v :: v in d ==> d'[v] == Min(d[v], Add(d[u], EdgeCost(g, u, v)))
    ensures Closed(g, d', done + {u})
  {
    forall x, k | x in done + {u} && 0 <= k < |g[x].neighbors|
      ensures g[x].neighbors[k].id in d' && Le(d'[g[x].neighbors[k].id], Add(d'[x], Fin(g[x].neighbors[k].distance)))
    {
      var v := g[x].neighbors[k].id;
      assert v in d;
      if x == u {
        MinCostSpec(g[u].neighbors, v);
        assert Le(EdgeCost(g, u, v), Fin(g[u].neighbors[k].distance));
        assert Le(d'[v], Add(d[u], EdgeCost(g, u, v)));
      } else {
        assert !Lt(Add(d[u], EdgeCost(g, u, x)), d[x]);
        assert d'[x] == d[x];
        assert Le(d[v], Add(d[x], Fin(g[x].neighbors[k].distance)));
        assert Le(d'[v], d[v]);
      }
    }
  }

  lemma FreshTree(g: Graph, u: StationId, d: Labels, prev: Links, done: set<StationId>, rank: map<StationId, nat>,
                  d': Labels, prev': Links)
    requires StepLabels(g, u, d, prev, done, d', prev') && Tree(g, d, prev, done, rank) && Ranked(done, rank)
    requires d.Keys == g.Keys && prev.Keys == g.Keys
    ensures Tree(g, d', prev', done + {u}, rank[u := |done|])
  {
    var done', rank' := done + {u}, rank[u := |done|];
    forall v | v in prev' && prev'[v].Some?
      ensures prev'[v].value in done' && prev'[v].value in g && prev'[v].value in d' && v in d' && d'[v].Fin? &&
        d'[v] == Add(d'[prev'[v].value], EdgeCost(g, prev'[v].value, v)) &&
        (v in done' ==> prev'[v].value in rank' && v in rank' && rank'[prev'[v].value] < rank'[v])
    {
      if !Lt(Add(d[u], EdgeCost(g, u, v)), d[v]) {
        var p := prev[v].value;
        assert !Lt(Add(d[u], EdgeCost(g, u, p)), d[p]);
      }
    }
  }

  lemma FreshOrdered(g: Graph, u: StationId, d: Labels, prev: Links, done: set<StationId>, d': Labels, prev': Links)
    requires StepLabels(g, u, d, prev, done, d', prev') && Ordered(d, done) && d.Keys == g.Keys
    ensures Ordered(d', done + {u})
  {
    forall s, v | s in done + {u} && v in d' && v !in done + {u} ensures s in d' && Le(d'[s], d'[v]) {
      EdgeCostNonNegative(g, u, v);
      if s != u {
        assert !Lt(Add(d[u], EdgeCost(g, u, s)), d[s]);
      }
    }
  }

  lemma FreshRooted(g: Graph, start: StationId, u: StationId, d: Labels, prev: Links, done: set<StationId>,
                    d': Labels, prev': Links)
    requires StepLabels(g, u, d, prev, done, d', prev') && Rooted(d, prev, start) && d.Keys == g.Keys && prev.Keys == g.Keys
    ensures Rooted(d', prev', start)
  {
    EdgeCostNonNegative(g, u, start);
    forall v | v in d' && d'[v].Fin? ensures d'[v].r >= 0.0 && (v != start ==> v in prev' && prev'[v].Some?) {
      EdgeCostNonNegative(g, u, v);
    }
  }

  lemma FreshQueue(u: StationId, d: Labels, q: seq<Entry>, done: set<StationId>, d': Labels, q': seq<Entry>)
    requires QueueSound(d, q) && Frontier(d, q, done) && q != [] && q[0].element == u && d'.Keys == d.Keys
    requires forall v :: v in d ==> Le(d'[v], d[v])
    requires forall e :: e in q' ==> e in q[1..] || (e.element in d' && d'[e.element].Fin? && d'[e.element].r <= e.priority)
    requires forall e :: e in q[1..] ==> e in q'
    requires forall v :: v in d && Lt(d'[v], d[v]) ==> Entry(v, d'[v].r) in q'
    ensures QueueSound(d', q') && Frontier(d', q', done + {u})
  {
    forall i | 0 <= i < |q'|
      ensures q'[i].element in d' && d'[q'[i].element].Fin? && d'[q'[i].element].r <= q'[i].priority
    {
      if q'[i] in q[1..] {
        var j :| 0 <= j < |q[1..]| && q[1..][j] == q'[i];
        assert q[j + 1] == q'[i];
      }
    }
    forall v | v in d' && v !in done + {u} && d'[v].Fin? ensures Entry(v, d'[v].r) in q' {
      if !Lt(d'[v], d[v]) {
        var i :| 0 <= i < |q| && q[i] == Entry(v, d[v].r);
        assert i != 0;
        assert q[1..][i - 1] == q[i];
      }
    }
  }

  /**
   * Optimality of the labels. Suppose every link out of a done station is
   * relaxed and b bounds from below the label of every station not done. Then
   * a walk from the start that stays among done stations costs at least the
   * label of its last station, and a walk that leaves them costs at least b.
   */
  lemma {:induction false} WalkBound(g: Graph, d: Labels, done: set<StationId>, start: StationId, b: Ext, w: seq<StationId>)
    requires WellFormed(g) && Closed(g, d, done) && d.Keys == g.Keys && start in d && d[start] == Fin(0.0)
    requires forall v :: v in d && v !in done ==> Le(b, d[v])
    requires IsWalk(g, w) && w[0] == start
    ensures (forall i :: 0 <= i < |w| ==> w[i] in done) ==> Le(d[w[|w| - 1]], PathCost(g, w))
    ensures (exists i :: 0 <= i < |w| && w[i] !in done) ==> Le(b, PathCost(g, w))
  {
    var n := |w| - 1;
    if n > 0 {
      var w' := w[..n];
      assert IsWalk(g, w');
      WalkBound(g, d, done, start, b, w');
      WalkCostFinite(g, w');
      var x, y := w[n - 1], w[n];
      assert w'[n - 1] == x;
      var c := EdgeCost(g, x, y);
      EdgeCostNonNegative(g, x, y);
      assert PathCost(g, w) == Add(PathCost(g, w'), c);
      if forall i :: 0 <= i < n ==> w'[i] in done {
        ClosedEdge(g, d, done, x, y);
      } else {
        var i :| 0 <= i < n && w'[i] !in done;
        assert w[i] !in done;
      }
    }
  }

  /** What the search knows when it stops: by reaching the end, or by running out of entries. */
  ghost predicate Settled(g: Graph, start: StationId, end: StationId, d: Labels, prev: Links,
                          done: set<StationId>, rank: map<StationId, nat>, reached: bool) {
    WellFormed(g) && start in g && d.Keys == g.Keys && prev.Keys == g.Keys && done <= g.Keys &&
    Tree(g, d, prev, done, rank) && Rooted(d, prev, start) && Ranked(done, rank) &&
    (reached ==> (end in d && d[end].Fin? &&
       forall w :: IsWalk(g, w) && w[0] == start && w[|w| - 1] == end ==> Le(d[end], PathCost(g, w)))) &&
    (!reached ==> !Reachable(g, start, end) && (end in d ==> d[end] == Inf))
  }

  /** When the end is dequeued its label is no more than the cost of any walk from the start to it. */
  lemma EndDequeued(g: Graph, start: StationId, end: StationId, d: Labels, prev: Links, q: seq<Entry>,
                    done: set<StationId>, rank: map<StationId, nat>)
    requires Inv(g, start, end, d, prev, q, done, rank) && q != [] && q[0].element == end
    ensures Settled(g, start, end, d, prev, done, rank, true)
  {
    FrontIsMinimal(d, q, done);
    forall w | IsWalk(g, w) && w[0] == start && w[|w| - 1] == end ensures Le(d[end], PathCost(g, w)) {
      WalkBound(g, d, done, start, d[end], w);
      assert w[|w| - 1] !in done;
    }
  }

  /** When the queue runs empty without reaching the end, no walk leads from the start to the end. */
  lemma QueueExhausted(g: Graph, start: StationId, end: StationId, d: Labels, prev: Links,
                       done: set<StationId>, rank: map<StationId, nat>)
    requires Inv(g, start, end, d, prev, [], done, rank)
    ensures Settled(g, start, end, d, prev, done, rank, false)
  {
    assert forall v :: v in d && v !in done ==> d[v] == Inf;
    if Reachable(g, start, end) {
      var w :| IsWalk(g, w) && w[0] == start && w[|w| - 1] == end;
      WalkCostFinite(g, w);
      assert w[|w| - 1] !in done;
      WalkBound(g, d, done, start, Inf, w);
      assert false;
    }
  }

  /** A run of predecessor links, each station the predecessor of the next. */
  ghost predicate Chain(prev: Links, path: seq<StationId>) {
    forall i :: 0 < i < |path| ==> path[i] in prev && prev[path[i]] == Some(path[i - 1])
  }

  /** A chain of predecessor links is a walk whose cost is the difference of its end labels. */
  lemma {:induction false} ChainIsWalk(g: Graph, d: Labels, prev: Links, done: set<StationId>, rank: map<StationId, nat>,
                                       path: seq<StationId>)
    requires Tree(g, d, prev, done, rank) && d.Keys == g.Keys && prev.Keys == g.Keys
    requires |path| >= 1 && path[|path| - 1] in g && Chain(prev, path)
    ensures IsWalk(g, path) && Add(d[path[0]], PathCost(g, path)) == d[path[|path| - 1]]
  {
    var n := |path| - 1;
    if n > 0 {
      var path' := path[..n];
      assert Chain(prev, path');
      assert path'[n - 1] == path[n - 1];
      ChainIsWalk(g, d, prev, done, rank, path');
      assert PathCost(g, path) == Add(PathCost(g, path'), EdgeCost(g, path[n - 1], path[n]));
    }
  }

  /** The rank of a station on the chain being walked back; it falls at every step. */
  ghost function ChainRank(current: Option<StationId>, done: set<StationId>, rank: map<StationId, nat>): nat {
    if current.None? then 0
    else if current.value in rank then rank[current.value] + 1
    else |done| + 1
  }
}
