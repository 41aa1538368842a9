/**
 * The waypoint selection: a start station, an end station and a list of via
 * stops, each a slot with its own uuid and an optional station.  Every handler
 * of the page is a transition from one selection to the next.
 */
module Selection {
  import opened Common

  /** One via slot; `None` is a slot the user has not filled yet. */
  datatype ViaStop = ViaStop(uuid: string, stationId: Option<StationId>)

  datatype Selection = Selection(start: Option<StationId>, end: Option<StationId>, vias: seq<ViaStop>)

  /** `viaStops.some(v => v.stationId === id)`: some slot holds exactly id (null included). */
  predicate HeldByVia(vias: seq<ViaStop>, id: Option<StationId>) {
    exists k :: 0 <= k < |vias| && vias[k].stationId == id
  }

  /** Some slot other than the one called uuid holds id. */
  predicate HeldByOtherVia(vias: seq<ViaStop>, uuid: string, id: Option<StationId>) {
    exists k :: 0 <= k < |vias| && vias[k].stationId == id && vias[k].uuid != uuid
  }

  /** Slots have distinct uuids, and no station fills two slots. */
  predicate ViasApart(vias: seq<ViaStop>) {
    forall i, j :: 0 <= i < j < |vias| ==>
      vias[i].uuid != vias[j].uuid && (IsSet(vias[i].stationId) ==> vias[i].stationId != vias[j].stationId)
  }

  /** The chosen stations play one role each: start, end and every filled slot are pairwise different. */
  predicate Valid(s: Selection) {
    (IsSet(s.start) ==> s.start != s.end) &&
    (forall k :: 0 <= k < |s.vias| && IsSet(s.vias[k].stationId) ==>
       s.vias[k].stationId != s.start && s.vias[k].stationId != s.end) &&
    ViasApart(s.vias)
  }

  /** `setStart`: refused when id is the end or is held by a slot; `null === null` counts. */
  function SetStart(s: Selection, id: Option<StationId>): Selection {
    if id == s.end || HeldByVia(s.vias, id) then s else s.(start := id)
  }

  /** `setEnd`: refused when id is the start or is held by a slot. */
  function SetEnd(s: Selection, id: Option<StationId>): Selection {
    if id == s.start || HeldByVia(s.vias, id) then s else s.(end := id)
  }

  /** `handleStationClick`: fill the start, else the end, else re-validate the end and replace the start. */
  function HandleStationClick(s: Selection, stationId: StationId): Selection {
    if !IsSet(s.start) then SetStart(s, Some(stationId))
    else if !IsSet(s.end) then SetEnd(s, Some(stationId))
    else SetStart(SetEnd(s, s.end), Some(stationId))
  }

  /** Every slot called uuid gets stationId; the others stay. */
  function Fill(vias: seq<ViaStop>, uuid: string, stationId: Option<StationId>): (r: seq<ViaStop>)
    ensures |r| == |vias|
    ensures forall k :: 0 <= k < |r| ==> r[k].uuid == vias[k].uuid
    ensures forall k :: 0 <= k < |r| ==> r[k].stationId == if vias[k].uuid == uuid then stationId else vias[k].stationId
  {
    seq(|vias|, k requires 0 <= k < |vias| => if vias[k].uuid == uuid then vias[k].(stationId := stationId) else vias[k])
  }

  /** `setViaStation`: a truthy id that is the start, the end or held by another slot is refused. */
  function SetViaStation(s: Selection, uuid: string, stationId: Option<StationId>): Selection {
    if IsSet(stationId) && (stationId == s.start || stationId == s.end || HeldByOtherVia(s.vias, uuid, stationId)) then s
    else s.(vias := Fill(s.vias, uuid, stationId))
  }

  /** The first slot that is still `null`, as `viaStops.find`. */
  function FirstEmpty(vias: seq<ViaStop>): (r: Option<nat>)
    ensures r.Some? ==> r.value < |vias| && vias[r.value].stationId.None? &&
                        forall k :: 0 <= k < r.value ==> vias[k].stationId.Some?
    ensures r.None? ==> forall k :: 0 <= k < |vias| ==> vias[k].stationId.Some?
  {
    if vias == [] then None
    else if vias[0].stationId.None? then Some(0)
    else match FirstEmpty(vias[1..]) {
      case None => None
      case Some(k) => Some(k + 1)
    }
  }

  /**
   * `handleContextAddVia` for the station of the open context menu (`None` when
   * the menu is closed): fill the first empty slot through setViaStation, or
   * append a new slot with the fresh uuid, unguarded.
   */
  function HandleContextAddVia(s: Selection, menu: Option<StationId>, freshUuid: string): Selection {
    if menu.None? then s
    else match FirstEmpty(s.vias) {
      case Some(k) => SetViaStation(s, s.vias[k].uuid, menu)
      case None => s.(vias := s.vias + [ViaStop(freshUuid, menu)])
    }
  }

  /** `addViaStop`: append an empty slot with a fresh uuid. */
  function AddViaStop(s: Selection, freshUuid: string): Selection {
    s.(vias := s.vias + [ViaStop(freshUuid, None)])
  }

  /** The slots whose uuid is not uuid, in their order, as `filter`. */
  function Without(vias: seq<ViaStop>, uuid: string): seq<ViaStop> {
    if vias == [] then []
    else (if vias[0].uuid == uuid then [] else [vias[0]]) + Without(vias[1..], uuid)
  }

  /** `removeViaStop`. */
  function RemoveViaStop(s: Selection, uuid: string): Selection {
    s.(vias := Without(s.vias, uuid))
  }

  /** `handleSwap`: start and end change places. */
  function HandleSwap(s: Selection): Selection {
    s.(start := s.end, end := s.start)
  }

  /** `handleReset`: nothing chosen and no slots. */
  function HandleReset(): Selection {
    Selection(None, None, [])
  }

  // ---------------------------------------------------------------- setStart / setEnd

  /** setStart takes id exactly when nothing else holds it, and touches nothing else. */
  lemma SetStartEffect(s: Selection, id: Option<StationId>)
    ensures SetStart(s, id).end == s.end && SetStart(s, id).vias == s.vias
    ensures SetStart(s, id).start == id <==> s.start == id || (id != s.end && !HeldByVia(s.vias, id))
    ensures SetStart(s, id).start != id ==> SetStart(s, id) == s
  {
  }

  /**
   * Clearing the start is refused while the end or some slot is still null,
   * because null equals null in the guard.
   */
  lemma ClearStartQuirk(s: Selection)
    requires s.start.Some?
    ensures SetStart(s, None).start.None? <==> s.end.Some? && forall k :: 0 <= k < |s.vias| ==> s.vias[k].stationId.Some?
  {
    if SetStart(s, None).start.None? {
      forall k | 0 <= k < |s.vias| ensures s.vias[k].stationId.Some? {
        assert !(s.vias[k].stationId == None);
      }
    }
  }

  lemma SetStartKeepsValid(s: Selection, id: Option<StationId>)
    requires Valid(s)
    ensures Valid(SetStart(s, id))
  {
    var t := SetStart(s, id);
    forall k | 0 <= k < |t.vias| && IsSet(t.vias[k].stationId)
      ensures t.vias[k].stationId != t.start
    {
      if t != s { assert s.vias[k].stationId != id; }
    }
  }

  /** setEnd takes id exactly when nothing else holds it, and touches nothing else. */
  lemma SetEndEffect(s: Selection, id: Option<StationId>)
    ensures SetEnd(s, id).start == s.start && SetEnd(s, id).vias == s.vias
    ensures SetEnd(s, id).end == id <==> s.end == id || (id != s.start && !HeldByVia(s.vias, id))
    ensures SetEnd(s, id).end != id ==> SetEnd(s, id) == s
  {
  }

  lemma SetEndKeepsValid(s: Selection, id: Option<StationId>)
    requires Valid(s)
    ensures Valid(SetEnd(s, id))
  {
    var t := SetEnd(s, id);
    forall k | 0 <= k < |t.vias| && IsSet(t.vias[k].stationId)
      ensures t.vias[k].stationId != t.end
    {
      if t != s { assert s.vias[k].stationId != id; }
    }
  }

  /** Re-validating the end changes nothing, whatever the state. */
  lemma SetEndSame(s: Selection)
    ensures SetEnd(s, s.end) == s
  {
  }

  // ---------------------------------------------------------------- handleStationClick

  /** With start and end both set, a click is setStart alone. */
  lemma ClickReplacesStart(s: Selection, stationId: StationId)
    requires IsSet(s.start) && IsSet(s.end)
    ensures HandleStationClick(s, stationId) == SetStart(s, Some(stationId))
  {
    SetEndSame(s);
  }

  lemma ClickKeepsValid(s: Selection, stationId: StationId)
    requires Valid(s)
    ensures Valid(HandleStationClick(s, stationId))
  {
    if !IsSet(s.start) {
      SetStartKeepsValid(s, Some(stationId));
    } else if !IsSet(s.end) {
      SetEndKeepsValid(s, Some(stationId));
    } else {
      ClickReplacesStart(s, stationId);
      SetStartKeepsValid(s, Some(stationId));
    }
  }

  // ---------------------------------------------------------------- setViaStation

  /**
   * setViaStation fills the slots called uuid exactly when the id is falsy or
   * free, and never touches start, end, uuids or the other slots.
   */
  lemma SetViaEffect(s: Selection, uuid: string, stationId: Option<StationId>)
    ensures var t := SetViaStation(s, uuid, stationId);
      t.start == s.start && t.end == s.end && |t.vias| == |s.vias| &&
      (forall k :: 0 <= k < |t.vias| ==> t.vias[k].uuid == s.vias[k].uuid) &&
      (forall k :: 0 <= k < |t.vias| && s.vias[k].uuid != uuid ==> t.vias[k] == s.vias[k])
    ensures var accepted := !IsSet(stationId) ||
        (stationId != s.start && stationId != s.end && !HeldByOtherVia(s.vias, uuid, stationId));
      forall k :: 0 <= k < |s.vias| && s.vias[k].uuid == uuid ==>
        SetViaStation(s, uuid, stationId).vias[k].stationId == if accepted then stationId else s.vias[k].stationId
  {
  }

  lemma SetViaKeepsValid(s: Selection, uuid: string, stationId: Option<StationId>)
    requires Valid(s)
    ensures Valid(SetViaStation(s, uuid, stationId))
  {
  }

  // ---------------------------------------------------------------- context menu, add, remove

  /** Filling an empty slot from the context menu keeps the selection valid. */
  lemma ContextFillKeepsValid(s: Selection, menu: Option<StationId>, freshUuid: string)
    requires Valid(s) && FirstEmpty(s.vias).Some?
    ensures Valid(HandleContextAddVia(s, menu, freshUuid))
  {
    if menu.Some? {
      SetViaKeepsValid(s, s.vias[FirstEmpty(s.vias).value].uuid, menu);
    }
  }

  /** With no empty slot the station is appended as a new slot, whatever else holds it. */
  lemma ContextAppend(s: Selection, id: StationId, freshUuid: string)
    requires FirstEmpty(s.vias).None?
    ensures HandleContextAddVia(s, Some(id), freshUuid) == s.(vias := s.vias + [ViaStop(freshUuid, Some(id))])
  {
  }

  /** The append is unguarded: adding the start station by the context menu breaks validity. */
  lemma ContextAppendDuplicates()
    ensures var s := Selection(Some("a"), None, []);
      Valid(s) && !Valid(HandleContextAddVia(s, Some("a"), "u1"))
  {
    var s := Selection(Some("a"), None, []);
    var t := HandleContextAddVia(s, Some("a"), "u1");
    assert t.vias[0].stationId == t.start;
  }

  lemma AddViaKeepsValid(s: Selection, freshUuid: string)
    requires Valid(s) && forall k :: 0 <= k < |s.vias| ==> s.vias[k].uuid != freshUuid
    ensures Valid(AddViaStop(s, freshUuid))
    ensures AddViaStop(s, freshUuid).vias[|s.vias|] == ViaStop(freshUuid, None)
  {
  }

  /** Removal keeps exactly the slots with another uuid; `WithoutAppend` gives their order. */
  lemma {:induction false} WithoutSpec(vias: seq<ViaStop>, uuid: string)
    ensures forall v :: v in Without(vias, uuid) <==> v in vias && v.uuid != uuid
    ensures |Without(vias, uuid)| <= |vias|
    ensures (forall k :: 0 <= k < |vias| ==> vias[k].uuid != uuid) ==> Without(vias, uuid) == vias
  {
    if vias != [] {
      WithoutSpec(vias[1..], uuid);
      assert vias == [vias[0]] + vias[1..];
    }
  }

  /** The filter works slot by slot, in order: filtering a + b is filtering a, then b. */
  lemma {:induction false} WithoutAppend(a: seq<ViaStop>, b: seq<ViaStop>, uuid: string)
    ensures Without(a + b, uuid) == Without(a, uuid) + Without(b, uuid)
  {
    if a == [] {
      assert a + b == b;
    } else {
      assert (a + b)[0] == a[0] && (a + b)[1..] == a[1..] + b;
      WithoutAppend(a[1..], b, uuid);
    }
  }

  /** Removal never brings two slots with the same uuid or station together. */
  lemma {:induction false} WithoutApart(vias: seq<ViaStop>, uuid: string)
    requires ViasApart(vias)
    ensures ViasApart(Without(vias, uuid))
  {
    if vias != [] {
      var rest := vias[1..];
      ApartTail(vias);
      ApartHead(vias);
      WithoutApart(rest, uuid);
      WithoutSpec(rest, uuid);
      var w := Without(rest, uuid);
      if vias[0].uuid != uuid {
        ApartCons(vias[0], w);
      } else {
        assert Without(vias, uuid) == w by { assert [] + w == w; }
      }
    }
  }

  lemma ApartTail(vias: seq<ViaStop>)
    requires ViasApart(vias) && vias != []
    ensures ViasApart(vias[1..])
  {
    var rest := vias[1..];
    forall i, j | 0 <= i < j < |rest|
      ensures rest[i].uuid != rest[j].uuid && (IsSet(rest[i].stationId) ==> rest[i].stationId != rest[j].stationId)
    {
      assert rest[i] == vias[i + 1] && rest[j] == vias[j + 1];
    }
  }

  /** The first slot differs from every later one. */
  lemma ApartHead(vias: seq<ViaStop>)
    requires ViasApart(vias) && vias != []
    ensures forall v :: v in vias[1..] ==>
      vias[0].uuid != v.uuid && (IsSet(vias[0].stationId) ==> vias[0].stationId != v.stationId)
  {
    forall v | v in vias[1..]
      ensures vias[0].uuid != v.uuid && (IsSet(vias[0].stationId) ==> vias[0].stationId != v.stationId)
    {
      var k :| 0 <= k < |vias[1..]| && vias[1..][k] == v;
      assert vias[k + 1] == v;
    }
  }

  lemma ApartCons(x: ViaStop, w: seq<ViaStop>)
    requires ViasApart(w)
    requires forall v :: v in w ==> x.uuid != v.uuid && (IsSet(x.stationId) ==> x.stationId != v.stationId)
    ensures ViasApart([x] + w)
  {
    var r := [x] + w;
    forall i, j | 0 <= i < j < |r|
      ensures r[i].uuid != r[j].uuid && (IsSet(r[i].stationId) ==> r[i].stationId != r[j].stationId)
    {
      assert r[j] == w[j - 1] && r[j] in w;
      if i > 0 {
        assert r[i] == w[i - 1];
      }
    }
  }


  lemma RemoveKeepsValid(s: Selection, uuid: string)
    requires Valid(s)
    ensures Valid(RemoveViaStop(s, uuid))
  {
    var t := RemoveViaStop(s, uuid);
    WithoutSpec(s.vias, uuid);
    WithoutApart(s.vias, uuid);
    forall k | 0 <= k < |t.vias| && IsSet(t.vias[k].stationId)
      ensures t.vias[k].stationId != t.start && t.vias[k].stationId != t.end
    {
      assert t.vias[k] in s.vias;
    }
  }

  // ---------------------------------------------------------------- swap and reset

  lemma SwapTwice(s: Selection)
    ensures HandleSwap(HandleSwap(s)) == s
    ensures HandleSwap(s).start == s.end && HandleSwap(s).end == s.start && HandleSwap(s).vias == s.vias
  {
  }

  lemma SwapKeepsValid(s: Selection)
    requires Valid(s)
    ensures Valid(HandleSwap(s))
  {
  }

  lemma ResetValid()
    ensures Valid(HandleReset()) && HandleReset().vias == []
  {
  }
}
