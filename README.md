# MMR Pathfinder route planner, modelled in Dafny

This project models the route planner in `App.tsx` of MMR Pathfinder, a
shortest-route finder for a metro network. It covers:

- building the weighted station graph from the station and connection lists;
- the array-backed priority queue;
- `findDijkstra`, the shortest-path search between two stations;
- `runPathfinding`, which strings together one search per consecutive pair of
  stops (start, via stations, end);
- the guarded handlers that edit the start, end and via selections;
- the segment list (`start`, `stops`, `change`, `via`, `end`) that
  `PathDisplay` builds for a route.

Modules, one per concern:

| file | module | models |
|---|---|---|
| `common.dfy` | `Common` | `Option`, JavaScript truthiness of ids (`IsSet`, `OrNull`), small sequence facts |
| `network.dfy` | `Network` | station records, the edge-weight rule, the graph-building `useMemo` |
| `paths.dfy` | `Paths` | distances with +∞ (`Ext`), walks in the graph and their cost |
| `queue.dfy` | `Queue` | class `PriorityQueue` over a `seq` field, with its stable sort as a spec function |
| `search_state.dfy` | `SearchState` | the invariant of the Dijkstra loop and the lemmas that carry it |
| `search.dfy` | `Search` | `findDijkstra`: initialisation, the dequeue/relax loop, the `unshift` path rebuild |
| `selection.dfy` | `Selection` | the start/end/via state and its handlers, as pure transitions |
| `composer.dfy` | `Composer` | `runPathfinding`: the stop check and the stitching loop |
| `itinerary.dfy` | `Itinerary` | the segment-building loop of `PathDisplay` |

Imperative code stays imperative:

- The queue is a class with a `modifies` frame on its methods.
- The graph builder, the search, the composer loop and the itinerary loop are
  methods with `while` loops.
- Each of these methods is proved against a specification function or
  predicate, and the promised properties are lemmas about that specification.
- The selection handlers are pure functions from the old selection to the new
  one, as the source computes them.

Three points about the code that a reader might not expect:

- **The itinerary does not list each station exactly once.** A station where
  the line changes and that is also a via yields both a `change` and a `via`
  segment. The last station can be a `change` or a `via` and also the `end`.
  The coverage property in `Itinerary.PlanCoverage` says what does hold.
- **The search re-processes stations.** There is no visited set and no
  "already finalized" check on dequeue. A station can be dequeued again through
  a stale queue entry, and its links are relaxed again. Such a repeat changes
  no label (`SearchState.StaleStep`).
- **The queue is not a heap.** It is an array that is pushed onto and then
  sorted again on every `enqueue`, and it is modelled that way.

## Model

| member | source | states |
|---|---|---|
| `Common.IsSet` | App.tsx:223 | JavaScript truthiness of a nullable string id: not `null` and not the empty string, as `!startStationId` and `allStops.some(id => !id)` test it |
| `Common.OrNull` | App.tsx:316 | the `or null` fallback on an id: the result is present exactly when the id is truthy, and then it is that id |
| `Network.EdgeWeight` | App.tsx:199-201 | the weight is never below the geographic distance; it is the distance plus 0.5 between different lines; it is strictly positive between distinct station ids, so coincident same-line stations do not get a zero-weight link |
| `Network.Catalog` | App.tsx:192 | every listed station id has an entry, and each entry is keyed by its own id |
| `Network.CatalogKeepsLast` | App.tsx:192 | when ids repeat, the map keeps the last record |
| `Network.AddConnection` | App.tsx:195-204 | an accepted connection adds id2 to id1's neighbours and id1 to id2's, with the same weight; a connection with an unknown endpoint leaves the graph unchanged |
| `Network.AddStations` | App.tsx:194 | after the first loop, every station id has a node with its record and no neighbours |
| `Network.AddConnections` | App.tsx:195-204 | after the connection loop, the graph is the specification `NodesAfter` of all connections |
| `Network.BuildNetwork` | App.tsx:191-207 | the station map, the graph and the interchange set are exactly those of the specification; the interchange set holds exactly the ids of stations flagged interchange |
| `Network.SkippedConnection` | App.tsx:198 | a connection with an unknown endpoint changes no adjacency list |
| `Network.AcceptedConnection` | App.tsx:202-203 | an accepted connection appends exactly the two mirrored entries with equal weight, and nothing else |
| `Network.ConnectionGivesBothEntries` | App.tsx:195-204 | every accepted connection appears in both endpoints' adjacency lists with the same weight |
| `Network.EntryFromConnection` | App.tsx:195-204 | every adjacency entry comes from an accepted connection, through one of its two ends |
| `Network.NetworkNodes` | App.tsx:194 | every station has a node, keyed by its own id |
| `Network.NetworkSymmetric` | App.tsx:202-203 | the graph is symmetric: u lists v with weight w exactly when v lists u with weight w |
| `Network.NetworkWellFormed` | App.tsx:191-207 | every neighbour is a node, weights are non-negative, and a link between distinct stations has positive weight |
| `Paths.MinCostSpec` | App.tsx:302-304 | the cheapest entry for v in an adjacency list is finite exactly when v is listed; it is no more than any entry for v and equal to one of them |
| `Paths.WalkCostFinite` | App.tsx:303 | the cost of every walk in a well-formed graph is finite and non-negative |
| `Paths.StitchCost` | App.tsx:345-350 | gluing two walks at a shared station gives a walk whose cost is the sum of the two |
| `Paths.SplitCost` | App.tsx:345-350 | cutting a walk at a station splits its cost into the costs of the two parts |
| `Queue.Insert` | App.tsx:32 | inserting into a sorted queue keeps it sorted and adds no other entry |
| `Queue.InsertMembers` | App.tsx:32 | insertion adds exactly the new entry, counting multiplicity |
| `Queue.InsertStable` | App.tsx:32 | insertion keeps the order of equal priorities and puts the new entry after them |
| `Queue.SortByPriority` | App.tsx:32 | the sort result is ordered by priority |
| `Queue.SortMembers` | App.tsx:32 | the sort is a permutation of its input |
| `Queue.SortStable` | App.tsx:32 | the sort keeps the relative order of each priority's entries |
| `Queue.EnqueueMembers` | App.tsx:29 | after `enqueue` the queue holds the old entries plus the new one, as a multiset |
| `Queue.EnqueueFifo` | App.tsx:29 | within a priority, entries leave in the order they were enqueued |
| `Queue.PriorityQueue.constructor` | App.tsx:28 | a new queue is empty |
| `Queue.PriorityQueue.Enqueue` | App.tsx:29 | the collection becomes the stable sort of the old collection plus the pushed entry |
| `Queue.PriorityQueue.Dequeue` | App.tsx:30 | removes and returns the front entry, which has minimum priority; the rest is unchanged; an empty queue gives `undefined` (None) |
| `Queue.PriorityQueue.IsEmpty` | App.tsx:31 | true exactly when the collection is empty |
| `Queue.PriorityQueue.Sort` | App.tsx:32 | the collection becomes its stable sort |
| `SearchState.PrevOf` | App.tsx:316 | the predecessor lookup with its `or null` fallback: present exactly for a key of `prev` whose link is a truthy id, and then it is that link |
| `SearchState.InitialInv` | App.tsx:290-296 | all labels +∞ except the start at 0, no predecessors, and the start queued: the loop invariant holds |
| `SearchState.FrontIsMinimal` | App.tsx:299 | the front of the queue carries a label no larger than that of any station not yet done |
| `SearchState.StaleStep` | App.tsx:298-309 | dequeuing a station again keeps the invariant, and relaxing its links changes no label |
| `SearchState.FreshStep` | App.tsx:298-309 | dequeuing a station for the first time and relaxing its links keeps the invariant |
| `SearchState.WalkBound` | App.tsx:298-310 | every station done has a label no larger than the cost of any walk from the start to it |
| `SearchState.EndDequeued` | App.tsx:300 | when the end is dequeued, its label is final and optimal |
| `SearchState.QueueExhausted` | App.tsx:298 | when the queue runs empty without the end being dequeued, no walk leads from the start to the end, and the end's label is +∞ |
| `SearchState.ChainIsWalk` | App.tsx:312-317 | a chain of predecessor links ending at a graph station is a walk, and the first station's label plus the walk's cost is the last station's label |
| `Search.RelaxEdge` | App.tsx:303-308 | strict relaxation of one link: when the new distance is smaller, the label, the predecessor and a queue entry are updated; otherwise nothing changes |
| `Search.RelaxNeighbors` | App.tsx:302-309 | after the `forEach`, each label is the smaller of itself and u's label plus the cheapest link from u; improved stations point to u and are queued |
| `Search.LabelsStep` | App.tsx:303-308 | one relaxation extends the labels specification by one neighbour, and labels only decrease |
| `Search.LoopKeepsOwnLabel` | App.tsx:302-309 | relaxing u's own links never changes u's label |
| `Search.InitialLabels` | App.tsx:290-293 | every graph station gets +∞ and no predecessor, and no other key is set |
| `Search.ReconstructPath` | App.tsx:312-317 | the rebuilt path ends at the end id and follows predecessor links back to a station without one; it is empty exactly when the end id is `""` (falsy) |
| `Search.Explore` | App.tsx:298-310 | the loop ends in a settled state: either it reached the end, and the end's label is no more than the cost of any walk from the start to it, or it did not, and then no walk leads from the start to the end and the end's label is +∞ |
| `Search.Step` | App.tsx:299-309 | one dequeue either stops at the end or keeps the invariant, with the loop measure decreasing |
| `Search.Finish` | App.tsx:312-322 | from a settled search, the walk back is accepted only when it reaches the start; the result then satisfies every `FindDijkstra` guarantee below |
| `Search.ResultCorrect` | App.tsx:312-322 | a returned path is a walk from start to end whose cost is the returned distance and is the least of any such walk; a failure is `(null, ∞)` |
| `Search.FindDijkstra` | App.tsx:285-323 | success gives a shortest walk from start to end with its cost; an unreachable end gives `(null, ∞)` and never a partial path; a reachable end is found when no station id is `""`; for a start id other than `""`, start equal to end gives `[start]` at distance 0 |
| `Selection.SetStart` | App.tsx:212-215 | `setStart`: refused when the id equals the end or some slot holds it (`null` included), otherwise the start becomes the id; its effect is stated by `Selection.SetStartEffect` |
| `Selection.SetEnd` | App.tsx:217-220 | `setEnd`, the mirror of `setStart`; stated by `Selection.SetEndEffect` |
| `Selection.HandleStationClick` | App.tsx:222-232 | fill an unset start, else an unset end, else re-set the end and then set the start; stated by `Selection.ClickReplacesStart` and `Selection.ClickKeepsValid` |
| `Selection.SetViaStation` | App.tsx:234-237 | `setViaStation`: a truthy id equal to the start, the end or another slot's station is refused, otherwise every slot with the uuid takes the id; stated by `Selection.SetViaEffect` |
| `Selection.HandleContextAddVia` | App.tsx:239-251 | with the menu open, fill the first empty slot through `setViaStation`, or append a slot with the fresh uuid; stated by `Selection.ContextFillKeepsValid`, `Selection.ContextAppend` and `Selection.ContextAppendDuplicates` |
| `Selection.AddViaStop` | App.tsx:253 | append an empty slot with the fresh uuid; stated by `Selection.AddViaKeepsValid` |
| `Selection.Without` | App.tsx:255 | the `filter` on the uuid; stated by `Selection.WithoutSpec`, `Selection.WithoutAppend` and `Selection.WithoutApart` |
| `Selection.RemoveViaStop` | App.tsx:254-256 | `removeViaStop` replaces the slots by the filtered ones; stated by `Selection.RemoveKeepsValid` |
| `Selection.HandleSwap` | App.tsx:258-263 | start and end change places; stated by `Selection.SwapTwice` |
| `Selection.HandleReset` | App.tsx:265-272 | no start, no end, no slots; stated by `Selection.ResetValid` |
| `Selection.SetStartEffect` | App.tsx:212-215 | `setStart` changes only the start; it takes id exactly when id is not the end and no via holds it (or the start is already id), otherwise nothing changes |
| `Selection.ClearStartQuirk` | App.tsx:213 | `setStart(null)` clears the start exactly when the end is not `null` and no via slot is `null`, because `null === null` in the guard |
| `Selection.SetStartKeepsValid` | App.tsx:212-215 | `setStart` keeps the set start, end and via ids pairwise distinct |
| `Selection.SetEndEffect` | App.tsx:217-220 | `setEnd` changes only the end, under the mirrored guard |
| `Selection.SetEndKeepsValid` | App.tsx:217-220 | `setEnd` keeps the ids pairwise distinct |
| `Selection.SetEndSame` | App.tsx:229 | re-setting the current end changes nothing |
| `Selection.ClickReplacesStart` | App.tsx:227-231 | with both start and end set, a click acts as `setStart` on the clicked station |
| `Selection.ClickKeepsValid` | App.tsx:222-232 | a station click keeps the ids pairwise distinct |
| `Selection.Fill` | App.tsx:236 | the `map` over slots sets the station of the slots with the uuid and leaves every other slot as it was |
| `Selection.SetViaEffect` | App.tsx:234-237 | `setViaStation` changes only the slot with the uuid; it takes the id exactly when the id is falsy or is neither the start, the end nor another slot's station |
| `Selection.SetViaKeepsValid` | App.tsx:234-237 | `setViaStation` keeps the ids pairwise distinct |
| `Selection.FirstEmpty` | App.tsx:242 | `find` returns the first slot whose station is `null`, or none when every slot is filled |
| `Selection.ContextFillKeepsValid` | App.tsx:244-245 | filling the first empty slot from the context menu keeps the ids distinct |
| `Selection.ContextAppend` | App.tsx:246-248 | with no empty slot, the context menu appends a new slot holding the station, whatever else holds it |
| `Selection.ContextAppendDuplicates` | App.tsx:248 | the unguarded append can break distinctness: with the start "a", adding "a" as a via gives an invalid state |
| `Selection.AddViaKeepsValid` | App.tsx:253 | appending an empty slot with a fresh uuid keeps validity and adds a slot at the end |
| `Selection.WithoutSpec` | App.tsx:255 | the `filter` keeps exactly the slots whose uuid differs, and changes nothing when no slot has the uuid |
| `Selection.WithoutAppend` | App.tsx:255 | the filter works slot by slot in order: filtering a + b gives the filtered a followed by the filtered b |
| `Selection.WithoutApart` | App.tsx:255 | the filter keeps the slots pairwise distinct |
| `Selection.RemoveKeepsValid` | App.tsx:254-256 | `removeViaStop` keeps validity |
| `Selection.SwapTwice` | App.tsx:258-263 | `handleSwap` exchanges start and end, leaves the vias alone, and two swaps restore the state |
| `Selection.SwapKeepsValid` | App.tsx:258-263 | swapping keeps validity |
| `Selection.ResetValid` | App.tsx:265-272 | reset gives a valid selection with no via slots |
| `Composer.AllStops` | App.tsx:279 | the stop list is the start, then each via slot's station in order, then the end |
| `Composer.Ids` | App.tsx:330-331 | once every stop is truthy, the ids are the stops' values and none is `""` |
| `Composer.SearchSegment` | App.tsx:335 | one search gives a shortest walk between the pair with its cost, or, when no id is `""`, no walk exists |
| `Composer.RunPathfinding` | App.tsx:274-356 | an unset or `""` stop is rejected before any search, and only then; otherwise the outcome is a walk from the first stop to the last that passes every stop in order, whose cost is the reported distance and that no such walk beats; or nothing, exactly when all stops are one station; or a pair of consecutive distinct stops after which every earlier pair was joinable and that is itself unreachable (when no id is `""`) |
| `Composer.Compose` | App.tsx:325-351 | the stitching loop meets that specification for any list of at least two ids whose searched pairs start at graph nodes |
| `Composer.JoinSegment` | App.tsx:333-350 | one pass of the loop: an equal pair leaves path and total unchanged; an unreachable pair stops the loop with that pair reported; otherwise a shortest walk for the pair is appended (whole the first time, without its first station afterwards), its cost is added to the total, and the loop invariant holds for one more pair |
| `Composer.StartBound` | App.tsx:325-327 | before the loop, the empty path at distance 0 meets the loop invariant |
| `Composer.BoundStep` | App.tsx:350 | a lower bound for the stops so far plus a lower bound for the next pair bounds every walk through one more stop |
| `Composer.SkipPair` | App.tsx:333 | skipping an equal pair keeps the loop invariant with the path and total unchanged |
| `Composer.JoinPath` | App.tsx:345-350 | the first segment becomes the path and a later one is appended without its first station; the result is a walk passing one more stop in order, costing the old total plus the segment's cost |
| `Composer.JoinPair` | App.tsx:345-350 | appending a found segment keeps the whole loop invariant |
| `Composer.Unreachable` | App.tsx:337-342 | an unreachable pair aborts with that pair reported and no result |
| `Composer.Finished` | App.tsx:353-355 | after the loop, a non-empty path is published as the route and an empty one publishes nothing |
| `Itinerary.ViaIds` | App.tsx:609 | `map` to the slots' stations, then `filter` out `null`; stated by `Itinerary.ViaIdsSpec` and `Itinerary.ViaIdsAppend` |
| `Itinerary.ViaIdsSpec` | App.tsx:609 | the via id list holds exactly the ids of the filled slots, and is no longer than the slot list |
| `Itinerary.ViaIdsAppend` | App.tsx:609 | the ids come slot by slot in slot order: the list for a + b is the list for a followed by the list for b |
| `Itinerary.Summarize` | App.tsx:609-643 | the segments built are, one for one, the segments the specification `Plan` puts at its path positions, shown with the station records |
| `Itinerary.Visit` | App.tsx:619-636 | one loop pass: the line-change check and then the via check, as `Scan` describes them |
| `Itinerary.CloseRun` | App.tsx:624-625 | the stops strictly between the last event and i are pushed as one `stops` segment, and only when there are any |
| `Itinerary.Close` | App.tsx:639-642 | after the loop, the trailing stops before the final station, then the end |
| `Itinerary.Slice` | App.tsx:624 | `slice` within the path: the stations from lo to hi, or nothing when lo is not below hi |
| `Itinerary.Lookup` | App.tsx:624 | `map(id => getStationById(id)!)`: one record per id, in order, each the record the station map holds for that id |
| `Itinerary.PlanEnds` | App.tsx:613-614 | an empty path gives no segments; otherwise the first segment is the start at position 0 and the last is the end at the last position |
| `Itinerary.PlanChanges` | App.tsx:623-628 | a `change` is emitted exactly at each position i ≥ 1 where the line of the previous station differs |
| `Itinerary.PlanVias` | App.tsx:630-636 | the `via` segments follow the filled via ids in order, each at most once: the k-th sits at the first position after the previous via that holds the k-th id, and the next id waited for does not occur after the last via shown |
| `Itinerary.PlanCoverage` | App.tsx:619-640 | every position strictly between the first and the last that is neither a change nor a via lies in exactly one `stops` run; every other position lies in none |
| `Itinerary.PlanOrdered` | App.tsx:619-642 | segments follow the path: each ends no later than the next begins |

## Left out

- `getHaversineDistance` (App.tsx:39-49) is floating-point trigonometry. It is the parameter `geo`, of a function type whose values are never negative. All distances are exact `real`s, with +∞ as `Ext.Inf`, so floating-point rounding is not modelled.
- Leaflet layers, `clearLayers`, the JSX, the `Combobox` and the nearest-station search are not part of this model. They draw things and hold no route logic.
- The alerts are the `Outcome` values `MissingStop` and `NoPathBetween`. The pair is reported by id, not by station name (App.tsx:338-340).
- `crypto.randomUUID` is the parameter `freshUuid`. `Selection.AddViaKeepsValid` assumes it differs from every existing uuid.
- Selection handlers are modelled as sequential transitions. React batches state updates, and the closures read the state of the render; for the handlers modelled, reading the updated state gives the same result.
- The context-menu state is the parameter `menu`. Closing the menu (`setContextMenu(null)`) and the `pathResult` display state are not modelled.
- `Search.FindDijkstra` requires its start id to be a graph node. `Composer.RunPathfinding` and `Composer.Compose` require it only of the pairs the loop actually searches: once every stop is set, each pair of distinct consecutive stops whose earlier pairs are all equal or joinable must start at a node (`Composer.Searched`). An unset stop, or a stop after the first unreachable pair, may be any id, because the source alerts and returns (App.tsx:280-283) or breaks (App.tsx:337-342) before searching it. For a searched start id that is not a node, the source throws a TypeError reading `.neighbors` of the undefined `stationGraph.get(u)` (App.tsx:302). Two handled inputs are still excluded. One is `findDijkstra(x, x)` for a non-node x; the composer never makes that call, because it skips equal pairs. The other is a non-node stop after a pair that is joinable but whose search fails on a `""` id. The page never produces either input: every selectable id is a station id, and `Network.NetworkNodes` makes every station a node.
- `Search.FindDijkstra`: a reachable end is proved found only when no station id is `""`. A `""` id is falsy, so `while (current)` (App.tsx:314) would stop rebuilding the path there, and the model says so through `OrNull`.
- `Itinerary.Summarize` requires every path id to be a known station. The `!` at App.tsx:620-621 is a type assertion with no run-time effect. On a path of two or more ids, an unknown id makes `prevStation.line` or `currStation.line` (App.tsx:623) throw a TypeError. On a one-id path nothing throws: App.tsx:614 and 642 build a `start` and an `end` segment with an undefined station. That one-id case is excluded by the requires and not modelled.
- Station names, lines and coordinates are data from `constants.ts`, which is not part of this model.
