/**
 * The itinerary shown under a route (`PathDisplay`): the path cut into a
 * start, runs of intermediate stops, line changes, via stations and an end.
 *
 * The loop is described twice: `Summarize` builds the station segments as the
 * page does, and `Plan` says at which path positions each segment sits.  The
 * properties of the itinerary are lemmas about `Plan`.
 */
module Itinerary {
  import opened Common
  import opened Network
  import opened Selection

  datatype Segment =
    | Start(station: Station)
    | Stops(stops: seq<Station>)
    | Change(station: Station, prevStation: Station)
    | Via(station: Station)
    | End(station: Station)

  /** Where a segment sits in the path: a position, or the positions lo..hi-1 of a run of stops. */
  datatype Mark = StartAt(i: nat) | RunOf(lo: nat, hi: nat) | ChangeAt(i: nat) | ViaAt(i: nat) | EndAt(i: nat)

  /** The loop state: the marks so far, `segmentStartIndex` and `currentViaIndex`. */
  datatype Cursor = Cursor(marks: seq<Mark>, from: nat, via: nat)

  /** `viaStops.map(v => v.stationId).filter(id => id !== null)`; the empty string stays. */
  function ViaIds(vias: seq<ViaStop>): seq<StationId> {
    if vias == [] then []
    else (if vias[0].stationId.Some? then [vias[0].stationId.value] else []) + ViaIds(vias[1..])
  }

  /** ViaIds keeps the filled slots and nothing else; `ViaIdsAppend` gives their order. */
  lemma {:induction false} ViaIdsSpec(vias: seq<ViaStop>)
    ensures forall x :: x in ViaIds(vias) <==> Some(x) in (set k | 0 <= k < |vias| :: vias[k].stationId)
    ensures |ViaIds(vias)| <= |vias|
  {
    if vias != [] {
      ViaIdsSpec(vias[1..]);
      var here := set k | 0 <= k < |vias| :: vias[k].stationId;
      var rest := set k | 0 <= k < |vias[1..]| :: vias[1..][k].stationId;
      assert here == {vias[0].stationId} + rest by {
        forall o | o in here ensures o in {vias[0].stationId} + rest {
          var k :| 0 <= k < |vias| && vias[k].stationId == o;
          if k > 0 { assert vias[1..][k - 1].stationId == o; }
        }
        forall o | o in rest ensures o in here {
          var k :| 0 <= k < |vias[1..]| && vias[1..][k].stationId == o;
          assert vias[k + 1].stationId == o;
        }
      }
    }
  }

  /**
   * ViaIds works slot by slot, in order: the ids of a + b are the ids of a
   * followed by those of b.
   */
  lemma {:induction false} ViaIdsAppend(a: seq<ViaStop>, b: seq<ViaStop>)
    ensures ViaIds(a + b) == ViaIds(a) + ViaIds(b)
  {
    if a == [] {
      assert a + b == b;
    } else {
      assert (a + b)[0] == a[0] && (a + b)[1..] == a[1..] + b;
      ViaIdsAppend(a[1..], b);
    }
  }

  /** Every path position has a station record (the page looks them up with `!`). */
  predicate Known(path: seq<StationId>, m: map<StationId, Station>) {
    forall k :: 0 <= k < |path| ==> path[k] in m
  }

  /** The line changes between positions i - 1 and i. */
  predicate LineChange(path: seq<StationId>, m: map<StationId, Station>, i: nat)
    requires Known(path, m) && 1 <= i < |path|
  {
    m[path[i - 1]].line != m[path[i]].line
  }

  /** A mark inside a path of length n: runs are non-empty and never hold position 0. */
  predicate Fits(mk: Mark, n: nat) {
    match mk
    case StartAt(i) => i < n
    case RunOf(lo, hi) => 1 <= lo < hi <= n
    case ChangeAt(i) => 1 <= i < n
    case ViaAt(i) => 1 <= i < n
    case EndAt(i) => i < n
  }

  /** The first and the last position a mark covers. */
  function Lo(mk: Mark): int {
    if mk.RunOf? then mk.lo else mk.i
  }

  function Hi(mk: Mark): int {
    if mk.RunOf? then mk.hi - 1 else mk.i
  }

  /** The state a cursor keeps after n positions: every mark fits and lies at or before `from`. */
  predicate Shape(c: Cursor, n: nat, vias: nat) {
    c.from < n && c.via <= vias &&
    forall k :: 0 <= k < |c.marks| ==> Fits(c.marks[k], n) && Hi(c.marks[k]) <= c.from
  }

  /** The stops strictly between `from` and i, when there are any. */
  function Run(from: nat, i: nat): seq<Mark> {
    if from + 1 < i then [RunOf(from + 1, i)] else []
  }

  /** Close the stops before i and put the mark mk at i, which becomes the new `segmentStartIndex`. */
  function Cut(c: Cursor, i: nat, mk: Mark, via: nat): (r: Cursor)
    requires c.from <= i
    ensures r.from == i && r.via == via
  {
    Cursor(c.marks + Run(c.from, i) + [mk], i, via)
  }

  /** The line-change check at position i. */
  function Turn(c: Cursor, path: seq<StationId>, m: map<StationId, Station>, i: nat): (r: Cursor)
    requires Known(path, m) && 1 <= i < |path| && Shape(c, i, c.via)
    ensures Shape(r, i + 1, c.via) && r.via == c.via && (r.from == i || r == c)
  {
    if LineChange(path, m, i) then Cut(c, i, ChangeAt(i), c.via) else c
  }

  /** The via check at position i, against the via id the cursor waits for. */
  function Match(c: Cursor, path: seq<StationId>, m: map<StationId, Station>, vs: seq<StationId>, i: nat): (r: Cursor)
    requires Known(path, m) && 1 <= i < |path| && Shape(c, i + 1, |vs|)
    ensures Shape(r, i + 1, |vs|)
  {
    if c.via < |vs| && m[path[i]].id == vs[c.via] then Cut(c, i, ViaAt(i), c.via + 1) else c
  }

  /** The cursor after the loop has looked at positions 1..n-1. */
  function Scan(path: seq<StationId>, m: map<StationId, Station>, vs: seq<StationId>, n: nat): (c: Cursor)
    requires Known(path, m) && 1 <= n <= |path|
    ensures Shape(c, n, |vs|)
    decreases n
  {
    if n == 1 then Cursor([StartAt(0)], 0, 0)
    else
      var c := Scan(path, m, vs, n - 1);
      Match(Turn(c, path, m, n - 1), path, m, vs, n - 1)
  }

  /** The positions of every segment of the itinerary, in order. */
  function Plan(path: seq<StationId>, m: map<StationId, Station>, vs: seq<StationId>): (plan: seq<Mark>)
    requires Known(path, m)
    ensures forall k :: 0 <= k < |plan| ==> Fits(plan[k], |path|)
  {
    if |path| == 0 then []
    else
      var c := Scan(path, m, vs, |path|);
      c.marks + Run(c.from, |path| - 1) + [EndAt(|path| - 1)]
  }

  /** `path.slice(lo, hi).map(id => getStationById(id)!)`. */
  function Lookup(ids: seq<StationId>, m: map<StationId, Station>): (r: seq<Station>)
    requires forall k :: 0 <= k < |ids| ==> ids[k] in m
    ensures |r| == |ids| && forall k :: 0 <= k < |ids| ==> r[k] == m[ids[k]]
  {
    seq(|ids|, k requires 0 <= k < |ids| => m[ids[k]])
  }

  /** The segment a mark stands for. */
  function Show(mk: Mark, path: seq<StationId>, m: map<StationId, Station>): Segment
    requires Known(path, m) && Fits(mk, |path|)
  {
    match mk
    case StartAt(i) => Start(m[path[i]])
    case RunOf(lo, hi) => Stops(Lookup(path[lo..hi], m))
    case ChangeAt(i) => Change(m[path[i]], m[path[i - 1]])
    case ViaAt(i) => Via(m[path[i]])
    case EndAt(i) => End(m[path[i]])
  }

  /** The segments shown are the marks, one for one. */
  ghost predicate Shows(segments: seq<Segment>, marks: seq<Mark>, path: seq<StationId>, m: map<StationId, Station>)
    requires Known(path, m)
  {
    |segments| == |marks| &&
    forall k :: 0 <= k < |marks| ==> Fits(marks[k], |path|) && segments[k] == Show(marks[k], path, m)
  }

  /** The segment list of `PathDisplay` for a path and the via slots. */
  method Summarize(path: seq<StationId>, viaStops: seq<ViaStop>, m: map<StationId, Station>)
      returns (segments: seq<Segment>)
    requires Known(path, m)
    ensures Shows(segments, Plan(path, m, ViaIds(viaStops)), path, m)
  {
    var viaStopsInPath := ViaIds(viaStops);
    segments := [];
    if |path| == 0 {
      return;
    }
    segments := segments + [Start(m[path[0]])];
    ghost var marks := [StartAt(0)];
    var segmentStartIndex := 0;
    var currentViaIndex := 0;
    var i := 1;
    while i < |path|
      invariant 1 <= i <= |path|
      invariant Scan(path, m, viaStopsInPath, i) == Cursor(marks, segmentStartIndex, currentViaIndex)
      invariant Shows(segments, marks, path, m)
    {
      segments, segmentStartIndex, currentViaIndex, marks :=
        Visit(path, m, viaStopsInPath, i, segments, segmentStartIndex, currentViaIndex, marks);
      i := i + 1;
    }
    segments := Close(path, m, segments, segmentStartIndex, marks);
    assert Plan(path, m, viaStopsInPath) == marks + Run(segmentStartIndex, |path| - 1) + [EndAt(|path| - 1)];
  }

  /** After the loop: the stops still open, then the end. */
  method Close(path: seq<StationId>, m: map<StationId, Station>, segments: seq<Segment>, from: nat,
               ghost marks: seq<Mark>)
      returns (segments': seq<Segment>)
    requires Known(path, m) && from < |path| && Shows(segments, marks, path, m)
    ensures Shows(segments', marks + Run(from, |path| - 1) + [EndAt(|path| - 1)], path, m)
  {
    ghost var marks';
    segments', marks' := CloseRun(path, m, segments, from, |path| - 1, marks);
    segments' := segments' + [End(m[path[|path| - 1]])];
    marks' := marks' + [EndAt(|path| - 1)];
  }

  /** One turn of the loop at position i: the line-change check, then the via check. */
  method Visit(path: seq<StationId>, m: map<StationId, Station>, viaStopsInPath: seq<StationId>, i: nat,
               segments: seq<Segment>, segmentStartIndex: nat, currentViaIndex: nat, ghost marks: seq<Mark>)
      returns (segments': seq<Segment>, segmentStartIndex': nat, currentViaIndex': nat, ghost marks': seq<Mark>)
    requires Known(path, m) && 1 <= i < |path|
    requires Scan(path, m, viaStopsInPath, i) == Cursor(marks, segmentStartIndex, currentViaIndex)
    requires Shows(segments, marks, path, m)
    ensures Scan(path, m, viaStopsInPath, i + 1) == Cursor(marks', segmentStartIndex', currentViaIndex')
    ensures Shows(segments', marks', path, m)
  {
    ghost var c := Cursor(marks, segmentStartIndex, currentViaIndex);
    segments', segmentStartIndex', currentViaIndex', marks' := segments, segmentStartIndex, currentViaIndex, marks;
    var prevStation := m[path[i - 1]];
    var currStation := m[path[i]];
    if prevStation.line != currStation.line {
      segments', marks' := CloseRun(path, m, segments', segmentStartIndex', i, marks');
      segments' := segments' + [Change(currStation, prevStation)];
      marks' := marks' + [ChangeAt(i)];
      segmentStartIndex' := i;
    }
    ghost var c1 := Cursor(marks', segmentStartIndex', currentViaIndex');
    assert c1 == Turn(c, path, m, i);
    if currentViaIndex' < |viaStopsInPath| && currStation.id == viaStopsInPath[currentViaIndex'] {
      segments', marks' := CloseRun(path, m, segments', segmentStartIndex', i, marks');
      segments' := segments' + [Via(currStation)];
      marks' := marks' + [ViaAt(i)];
      segmentStartIndex' := i;
      currentViaIndex' := currentViaIndex' + 1;
    }
    assert Cursor(marks', segmentStartIndex', currentViaIndex') == Match(c1, path, m, viaStopsInPath, i);
  }

  /** `path.slice(lo, hi)` for positions within the path: empty when lo is not below hi. */
  function Slice(path: seq<StationId>, lo: nat, hi: nat): (r: seq<StationId>)
    requires lo <= |path| && hi <= |path|
    ensures |r| == if lo < hi then hi - lo else 0
    ensures forall k :: 0 <= k < |r| ==> r[k] == path[lo + k]
  {
    if lo < hi then path[lo..hi] else []
  }

  /** Push the stops strictly between `from` and hi, if there are any. */
  method CloseRun(path: seq<StationId>, m: map<StationId, Station>, segments: seq<Segment>, from: nat, hi: nat,
                  ghost marks: seq<Mark>)
      returns (segments': seq<Segment>, ghost marks': seq<Mark>)
    requires Known(path, m) && from < |path| && hi <= |path| && Shows(segments, marks, path, m)
    ensures marks' == marks + Run(from, hi) && Shows(segments', marks', path, m)
  {
    var stops := Lookup(Slice(path, from + 1, hi), m);
    if |stops| > 0 {
      segments' := segments + [Stops(stops)];
      marks' := marks + [RunOf(from + 1, hi)];
      assert Slice(path, from + 1, hi) == path[from + 1..hi];
    } else {
      segments', marks' := segments, marks;
    }
  }

  // ---------------------------------------------------------------- what the plan promises

  /** How many runs of stops hold position j. */
  ghost function RunCount(ms: seq<Mark>, j: int): nat {
    if ms == [] then 0
    else (if ms[0].RunOf? && ms[0].lo <= j < ms[0].hi then 1 else 0) + RunCount(ms[1..], j)
  }

  /** Position j is a line change or a via station. */
  ghost predicate Break(ms: seq<Mark>, j: nat) {
    ChangeAt(j) in ms || ViaAt(j) in ms
  }

  /** The positions of the via segments, in order. */
  ghost function ViaPos(ms: seq<Mark>): seq<nat> {
    if ms == [] then []
    else (if ms[0].ViaAt? then [ms[0].i] else []) + ViaPos(ms[1..])
  }

  lemma {:induction false} RunCountAppend(a: seq<Mark>, b: seq<Mark>, j: int)
    ensures RunCount(a + b, j) == RunCount(a, j) + RunCount(b, j)
  {
    if a != [] {
      assert (a + b)[0] == a[0] && (a + b)[1..] == a[1..] + b;
      RunCountAppend(a[1..], b, j);
    } else {
      assert a + b == b;
    }
  }

  lemma {:induction false} ViaPosAppend(a: seq<Mark>, b: seq<Mark>)
    ensures ViaPos(a + b) == ViaPos(a) + ViaPos(b)
  {
    if a != [] {
      assert (a + b)[0] == a[0] && (a + b)[1..] == a[1..] + b;
      ViaPosAppend(a[1..], b);
    } else {
      assert a + b == b;
    }
  }

  /** The positions the plan puts in no run: 0, `from`, the breaks, and everything after `from`. */
  ghost predicate Covered(ms: seq<Mark>, from: nat) {
    (forall j :: RunCount(ms, j) == (if 1 <= j <= from && !Break(ms, j) then 1 else 0)) &&
    (forall j :: from < j ==> !Break(ms, j)) &&
    (from >= 1 ==> Break(ms, from))
  }

  /** Cutting at a break i puts every open position from `from` + 1 to i - 1 in the new run. */
  lemma CutCovered(c: Cursor, i: nat, mk: Mark, via: nat)
    requires Covered(c.marks, c.from) && 1 <= i && c.from <= i && (mk == ChangeAt(i) || mk == ViaAt(i))
    ensures Covered(Cut(c, i, mk, via).marks, i)
  {
    var r := Run(c.from, i);
    var ms := c.marks + r + [mk];
    forall j ensures RunCount(ms, j) == RunCount(c.marks, j) + (if c.from + 1 <= j < i then 1 else 0) {
      RunCountAppend(c.marks + r, [mk], j);
      RunCountAppend(c.marks, r, j);
      assert RunCount([mk], j) == 0 by { assert [mk][1..] == []; }
      if r != [] { assert r[1..] == []; }
    }
    forall j ensures Break(ms, j) <==> Break(c.marks, j) || j == i {
    }
  }

  /** Before the loop only the start is marked. */
  lemma StartCovered()
    ensures Covered([StartAt(0)], 0)
  {
    var ms := [StartAt(0)];
    forall j ensures RunCount(ms, j) == 0 { assert ms[1..] == []; }
  }

  lemma TurnCovered(path: seq<StationId>, m: map<StationId, Station>, c: Cursor, i: nat)
    requires Known(path, m) && 1 <= i < |path| && Shape(c, i, c.via) && Covered(c.marks, c.from)
    ensures Covered(Turn(c, path, m, i).marks, Turn(c, path, m, i).from)
  {
    if LineChange(path, m, i) { CutCovered(c, i, ChangeAt(i), c.via); }
  }

  lemma MatchCovered(path: seq<StationId>, m: map<StationId, Station>, vs: seq<StationId>, c: Cursor, i: nat)
    requires Known(path, m) && 1 <= i < |path| && Shape(c, i + 1, |vs|) && Covered(c.marks, c.from)
    ensures Covered(Match(c, path, m, vs, i).marks, Match(c, path, m, vs, i).from)
  {
    if c.via < |vs| && m[path[i]].id == vs[c.via] { CutCovered(c, i, ViaAt(i), c.via + 1); }
  }

  lemma {:induction false} ScanCovered(path: seq<StationId>, m: map<StationId, Station>, vs: seq<StationId>, n: nat)
    requires Known(path, m) && 1 <= n <= |path|
    ensures Covered(Scan(path, m, vs, n).marks, Scan(path, m, vs, n).from)
  {
    if n == 1 {
      StartCovered();
    } else {
      ScanCovered(path, m, vs, n - 1);
      StepCovered(path, m, vs, Scan(path, m, vs, n - 1), n, Scan(path, m, vs, n));
    }
  }

  /** One step of the scan, at position n - 1, keeps the positions covered. */
  lemma StepCovered(path: seq<StationId>, m: map<StationId, Station>, vs: seq<StationId>, c: Cursor, n: nat, r: Cursor)
    requires Known(path, m) && 2 <= n <= |path| && Shape(c, n - 1, |vs|) && Covered(c.marks, c.from)
    requires r == Match(Turn(c, path, m, n - 1), path, m, vs, n - 1)
    ensures Covered(r.marks, r.from)
  {
    TurnCovered(path, m, c, n - 1);
    MatchCovered(path, m, vs, Turn(c, path, m, n - 1), n - 1);
  }

  /**
   * Coverage: every position strictly between the first and the last that is
   * neither a line change nor a via station lies in exactly one run of stops;
   * every other position lies in none.
   */
  lemma PlanCoverage(path: seq<StationId>, m: map<StationId, Station>, vs: seq<StationId>)
    requires Known(path, m)
    ensures var plan := Plan(path, m, vs);
      forall j :: RunCount(plan, j) == if 1 <= j < |path| - 1 && !Break(plan, j) then 1 else 0
  {
    if |path| > 0 {
      var c := Scan(path, m, vs, |path|);
      ScanCovered(path, m, vs, |path|);
      EndCovered(c, |path|);
      assert Plan(path, m, vs) == Cut(c, |path| - 1, EndAt(|path| - 1), c.via).marks;
    }
  }

  /** Closing at the last position n - 1 puts the open positions before it in the last run. */
  lemma EndCovered(c: Cursor, n: nat)
    requires Covered(c.marks, c.from) && c.from < n
    ensures var ms := Cut(c, n - 1, EndAt(n - 1), c.via).marks;
      forall j :: RunCount(ms, j) == if 1 <= j < n - 1 && !Break(ms, j) then 1 else 0
  {
    var r := Run(c.from, n - 1);
    var ms := c.marks + r + [EndAt(n - 1)];
    forall j ensures RunCount(ms, j) == RunCount(c.marks, j) + (if c.from + 1 <= j < n - 1 then 1 else 0) {
      RunCountAppend(c.marks + r, [EndAt(n - 1)], j);
      RunCountAppend(c.marks, r, j);
      assert [EndAt(n - 1)][1..] == [];
      if r != [] { assert r[1..] == []; }
    }
    forall j ensures Break(ms, j) <==> Break(c.marks, j) {
    }
  }

  /** The plan opens with the start at position 0 and closes with the end at the last position. */
  lemma {:induction false} ScanHead(path: seq<StationId>, m: map<StationId, Station>, vs: seq<StationId>, n: nat)
    requires Known(path, m) && 1 <= n <= |path|
    ensures |Scan(path, m, vs, n).marks| >= 1 && Scan(path, m, vs, n).marks[0] == StartAt(0)
  {
    if n > 1 {
      ScanHead(path, m, vs, n - 1);
    }
  }

  lemma PlanEnds(path: seq<StationId>, m: map<StationId, Station>, vs: seq<StationId>)
    requires Known(path, m)
    ensures var plan := Plan(path, m, vs);
      (|path| == 0 ==> plan == []) &&
      (|path| > 0 ==> |plan| >= 2 && plan[0] == StartAt(0) && plan[|plan| - 1] == EndAt(|path| - 1))
  {
    if |path| > 0 {
      ScanHead(path, m, vs, |path|);
    }
  }

  /** A line change is shown exactly where the line of consecutive stations differs. */
  lemma {:induction false} ScanChanges(path: seq<StationId>, m: map<StationId, Station>, vs: seq<StationId>, n: nat)
    requires Known(path, m) && 1 <= n <= |path|
    ensures forall j: nat :: ChangeAt(j) in Scan(path, m, vs, n).marks <==> 1 <= j < n && LineChange(path, m, j)
  {
    if n > 1 {
      ScanChanges(path, m, vs, n - 1);
    }
  }

  lemma PlanChanges(path: seq<StationId>, m: map<StationId, Station>, vs: seq<StationId>)
    requires Known(path, m)
    ensures forall j: nat :: ChangeAt(j) in Plan(path, m, vs) <==> 1 <= j < |path| && LineChange(path, m, j)
  {
    if |path| > 0 {
      ScanChanges(path, m, vs, |path|);
    }
  }

  /** No station in positions lo..hi-1 is x. */
  ghost predicate Misses(path: seq<StationId>, m: map<StationId, Station>, x: StationId, lo: int, hi: int)
    requires Known(path, m)
  {
    forall j :: lo <= j < hi && 0 <= j < |path| ==> m[path[j]].id != x
  }

  lemma MissesMore(path: seq<StationId>, m: map<StationId, Station>, x: StationId, lo: int, hi: nat)
    requires Known(path, m) && Misses(path, m, x, lo, hi) && (hi < |path| ==> m[path[hi]].id != x)
    ensures Misses(path, m, x, lo, hi + 1)
  {
  }

  /** Where the search for the k-th via id starts: after the previous via, or at position 1. */
  function From(p: seq<nat>, k: nat): int
    requires k <= |p|
  {
    if k == 0 then 1 else p[k - 1] + 1
  }

  /** Where it stops: at the k-th via if it was found, else at n. */
  function Until(p: seq<nat>, k: nat, n: nat): int {
    if k < |p| then p[k] else n
  }

  /**
   * The vias found so far at the positions p, while the first n positions
   * have been looked at: the k-th via segment is the k-th via id, found at the
   * first position after the previous via where it occurs.
   */
  ghost predicate ViasFound(path: seq<StationId>, m: map<StationId, Station>, vs: seq<StationId>, p: seq<nat>, n: nat)
    requires Known(path, m)
  {
    |p| <= |vs| && ViaHits(path, m, vs, p, n) && Increasing(p) && ViaMisses(path, m, vs, p, n)
  }

  /** The k-th via position is before n and holds the k-th via id. */
  ghost predicate ViaHits(path: seq<StationId>, m: map<StationId, Station>, vs: seq<StationId>, p: seq<nat>, n: nat)
    requires Known(path, m) && |p| <= |vs|
  {
    forall k :: 0 <= k < |p| ==> 1 <= p[k] < n && p[k] < |path| && m[path[p[k]]].id == vs[k]
  }

  ghost predicate Increasing(p: seq<nat>) {
    forall a, b :: 0 <= a < b < |p| ==> p[a] < p[b]
  }

  /** The k-th via id does not occur between the previous via and the k-th. */
  ghost predicate ViaMisses(path: seq<StationId>, m: map<StationId, Station>, vs: seq<StationId>, p: seq<nat>, n: nat)
    requires Known(path, m)
  {
    forall k :: 0 <= k <= |p| && k < |vs| ==> Misses(path, m, vs[k], From(p, k), Until(p, k, n))
  }

  /** Closing a run and marking a line change adds no via. */
  lemma TurnVias(path: seq<StationId>, m: map<StationId, Station>, c: Cursor, i: nat)
    requires Known(path, m) && 1 <= i < |path| && Shape(c, i, c.via)
    ensures ViaPos(Turn(c, path, m, i).marks) == ViaPos(c.marks)
  {
    if LineChange(path, m, i) {
      var r := Run(c.from, i);
      ViaPosAppend(c.marks + r, [ChangeAt(i)]);
      ViaPosAppend(c.marks, r);
      assert ViaPos([ChangeAt(i)]) == [] by { assert [ChangeAt(i)][1..] == []; }
      if r != [] { assert r[1..] == []; }
    }
  }

  /** The via check adds position i when the id waited for is there. */
  lemma FoundPos(path: seq<StationId>, m: map<StationId, Station>, vs: seq<StationId>, c: Cursor, i: nat, r: Cursor)
    requires Known(path, m) && 1 <= i < |path| && Shape(c, i + 1, |vs|)
    requires c.via < |vs| && m[path[i]].id == vs[c.via] && r == Match(c, path, m, vs, i)
    ensures ViaPos(r.marks) == ViaPos(c.marks) + [i] && r.via == c.via + 1
  {
    var run := Run(c.from, i);
    ViaPosAppend(c.marks + run, [ViaAt(i)]);
    ViaPosAppend(c.marks, run);
    assert ViaPos([ViaAt(i)]) == [i] by { assert [ViaAt(i)][1..] == []; }
    if run != [] { assert run[1..] == []; }
  }

  /** A via found at i: the search for the next one starts after i. */
  lemma FoundVia(path: seq<StationId>, m: map<StationId, Station>, vs: seq<StationId>, p: seq<nat>, n: nat, p': seq<nat>)
    requires Known(path, m) && 2 <= n <= |path| && ViasFound(path, m, vs, p, n - 1)
    requires |p| < |vs| && m[path[n - 1]].id == vs[|p|] && p' == p + [n - 1]
    ensures ViasFound(path, m, vs, p', n)
  {
    FoundHits(path, m, vs, p, n - 1, p');
    FoundIncreasing(p, n - 1, p');
    FoundMisses(path, m, vs, p, n - 1, p');
  }

  lemma FoundHits(path: seq<StationId>, m: map<StationId, Station>, vs: seq<StationId>, p: seq<nat>, i: nat, p': seq<nat>)
    requires Known(path, m) && 1 <= i < |path| && |p| < |vs| && ViaHits(path, m, vs, p, i)
    requires m[path[i]].id == vs[|p|] && p' == p + [i]
    ensures ViaHits(path, m, vs, p', i + 1)
  {
    forall k | 0 <= k < |p'| ensures 1 <= p'[k] < i + 1 && p'[k] < |path| && m[path[p'[k]]].id == vs[k] {
      if k < |p| { assert p'[k] == p[k]; } else { assert p'[k] == i && k == |p|; }
    }
  }

  lemma FoundIncreasing(p: seq<nat>, i: nat, p': seq<nat>)
    requires Increasing(p) && (forall k :: 0 <= k < |p| ==> p[k] < i) && p' == p + [i]
    ensures Increasing(p')
  {
    forall a, b | 0 <= a < b < |p'| ensures p'[a] < p'[b] {
      assert p'[a] == p[a];
      if b < |p| { assert p'[b] == p[b]; }
    }
  }

  lemma FoundMisses(path: seq<StationId>, m: map<StationId, Station>, vs: seq<StationId>, p: seq<nat>, i: nat, p': seq<nat>)
    requires Known(path, m) && |p| < |vs| && ViaMisses(path, m, vs, p, i) && p' == p + [i]
    ensures ViaMisses(path, m, vs, p', i + 1)
  {
    forall k | 0 <= k <= |p'| && k < |vs| ensures Misses(path, m, vs[k], From(p', k), Until(p', k, i + 1)) {
      if k <= |p| {
        assert From(p', k) == From(p, k) && Until(p', k, i + 1) == Until(p, k, i);
      }
    }
  }

  /** No via at i: the search for the one waited for goes on past i. */
  lemma MissedVia(path: seq<StationId>, m: map<StationId, Station>, vs: seq<StationId>, p: seq<nat>, n: nat)
    requires Known(path, m) && 2 <= n <= |path| && ViasFound(path, m, vs, p, n - 1)
    requires |p| < |vs| ==> m[path[n - 1]].id != vs[|p|]
    ensures ViasFound(path, m, vs, p, n)
  {
    forall k | 0 <= k <= |p| && k < |vs| ensures Misses(path, m, vs[k], From(p, k), Until(p, k, n)) {
      if k == |p| {
        MissesMore(path, m, vs[k], From(p, k), n - 1);
      } else {
        assert Until(p, k, n) == Until(p, k, n - 1);
      }
    }
  }

  /** Before the loop no via has been found and none has been looked for. */
  lemma StartVias(path: seq<StationId>, m: map<StationId, Station>, vs: seq<StationId>)
    requires Known(path, m)
    ensures ViaPos([StartAt(0)]) == [] && ViasFound(path, m, vs, [], 1)
  {
    assert [StartAt(0)][1..] == [];
  }

  /** One step of the scan, at position n - 1, keeps the vias found in agreement with the positions looked at. */
  lemma StepVias(path: seq<StationId>, m: map<StationId, Station>, vs: seq<StationId>, c: Cursor, n: nat, r: Cursor)
    requires Known(path, m) && 2 <= n <= |path| && Shape(c, n - 1, |vs|)
    requires ViasFound(path, m, vs, ViaPos(c.marks), n - 1) && |ViaPos(c.marks)| == c.via
    requires r == Match(Turn(c, path, m, n - 1), path, m, vs, n - 1)
    ensures ViasFound(path, m, vs, ViaPos(r.marks), n) && |ViaPos(r.marks)| == r.via
  {
    var i := n - 1;
    var c1 := Turn(c, path, m, i);
    TurnVias(path, m, c, i);
    if c1.via < |vs| && m[path[i]].id == vs[c1.via] {
      FoundPos(path, m, vs, c1, i, r);
      FoundVia(path, m, vs, ViaPos(c.marks), n, ViaPos(r.marks));
    } else {
      assert r == c1;
      MissedVia(path, m, vs, ViaPos(r.marks), n);
    }
  }

  lemma {:induction false} ScanVias(path: seq<StationId>, m: map<StationId, Station>, vs: seq<StationId>, n: nat)
    requires Known(path, m) && 1 <= n <= |path|
    ensures ViasFound(path, m, vs, ViaPos(Scan(path, m, vs, n).marks), n)
    ensures |ViaPos(Scan(path, m, vs, n).marks)| == Scan(path, m, vs, n).via
  {
    if n == 1 {
      assert Scan(path, m, vs, n) == Cursor([StartAt(0)], 0, 0);
      StartVias(path, m, vs);
    } else {
      ScanVias(path, m, vs, n - 1);
      StepVias(path, m, vs, Scan(path, m, vs, n - 1), n, Scan(path, m, vs, n));
    }
  }

  /**
   * The via segments follow the list of filled via ids in order, each at most
   * once: the k-th is the k-th id, at the first position after the previous
   * via where that station occurs; an id not shown does not occur after the
   * last via shown.
   */
  lemma PlanVias(path: seq<StationId>, m: map<StationId, Station>, vs: seq<StationId>)
    requires Known(path, m) && |path| >= 1
    ensures ViasFound(path, m, vs, ViaPos(Plan(path, m, vs)), |path|)
  {
    var c := Scan(path, m, vs, |path|);
    ScanVias(path, m, vs, |path|);
    EndVias(c, |path|);
    assert Plan(path, m, vs) == Cut(c, |path| - 1, EndAt(|path| - 1), c.via).marks;
  }

  /** The end adds no via. */
  lemma EndVias(c: Cursor, n: nat)
    requires c.from < n
    ensures ViaPos(Cut(c, n - 1, EndAt(n - 1), c.via).marks) == ViaPos(c.marks)
  {
    var r := Run(c.from, n - 1);
    ViaPosAppend(c.marks + r, [EndAt(n - 1)]);
    ViaPosAppend(c.marks, r);
    assert ViaPos([EndAt(n - 1)]) == [] by { assert [EndAt(n - 1)][1..] == []; }
    if r != [] { assert r[1..] == []; }
  }

  /** Segments follow the path: each one ends no later than the next one begins. */
  ghost predicate Ordered(ms: seq<Mark>) {
    forall a, b :: 0 <= a < b < |ms| ==> Hi(ms[a]) <= Lo(ms[b])
  }

  lemma CutOrdered(c: Cursor, i: nat, mk: Mark, via: nat)
    requires Ordered(c.marks) && c.from <= i && Lo(mk) == i
    requires forall k :: 0 <= k < |c.marks| ==> Hi(c.marks[k]) <= c.from
    ensures Ordered(Cut(c, i, mk, via).marks)
  {
    var r := Run(c.from, i);
    var ms := c.marks + r + [mk];
    forall a, b | 0 <= a < b < |ms| ensures Hi(ms[a]) <= Lo(ms[b]) {
      if b < |c.marks| {
        assert ms[a] == c.marks[a] && ms[b] == c.marks[b];
      } else if a < |c.marks| {
        assert ms[a] == c.marks[a];
      }
    }
  }

  lemma {:induction false} ScanOrdered(path: seq<StationId>, m: map<StationId, Station>, vs: seq<StationId>, n: nat)
    requires Known(path, m) && 1 <= n <= |path|
    ensures Ordered(Scan(path, m, vs, n).marks)
  {
    if n > 1 {
      var c := Scan(path, m, vs, n - 1);
      ScanOrdered(path, m, vs, n - 1);
      var c1 := Turn(c, path, m, n - 1);
      if LineChange(path, m, n - 1) { CutOrdered(c, n - 1, ChangeAt(n - 1), c.via); }
      if c1.via < |vs| && m[path[n - 1]].id == vs[c1.via] { CutOrdered(c1, n - 1, ViaAt(n - 1), c1.via + 1); }
    }
  }

  lemma PlanOrdered(path: seq<StationId>, m: map<StationId, Station>, vs: seq<StationId>)
    requires Known(path, m)
    ensures Ordered(Plan(path, m, vs))
  {
    if |path| > 0 {
      var c := Scan(path, m, vs, |path|);
      ScanOrdered(path, m, vs, |path|);
      CutOrdered(c, |path| - 1, EndAt(|path| - 1), c.via);
      assert Plan(path, m, vs) == Cut(c, |path| - 1, EndAt(|path| - 1), c.via).marks;
    }
  }
}
