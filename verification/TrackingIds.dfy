/** `MultiTouchMotionAccumulator` and `MultiTouchInputMapper::syncTouch`: from the slots of the Linux
    multi-touch protocol to pointers, with pointer ids taken from the tracking ids. */
module TrackingIds {
  import opened BitSets
  import opened RawPointers

  datatype Slot = Slot(inUse: bool, trackingId: int, x: int, y: int, pressure: int, toolType: ToolType, shape: int)

  const CLEARED: Slot := Slot(false, -1, 0, 0, 0, Unknown, 0)

  /** The events the accumulator reacts to; `Other` is any other absolute axis of a contact that marks
      the slot as used, `Ignored` an axis it does not know. */
  datatype RawEvent =
    | SelectSlot(slot: int)
    | TrackingId(value: int)
    | PositionX(value: int)
    | PositionY(value: int)
    | Pressure(value: int)
    | Tool(tool: ToolType)
    | Other(value: int)
    | Ignored
    | MtReport

  /** In-use slots carry distinct non-negative tracking ids. */
  ghost predicate Tracked(slots: seq<Slot>) {
    && (forall i :: 0 <= i < |slots| && slots[i].inUse ==> slots[i].trackingId >= 0)
    && forall i, j :: 0 <= i < j < |slots| && slots[i].inUse && slots[j].inUse ==> slots[i].trackingId != slots[j].trackingId
  }

  /** The slots that are reported, in slot order. */
  ghost function InUse(slots: seq<Slot>): (r: seq<Slot>)
    ensures |r| <= |slots|
  {
    if slots == [] then []
    else
      var n := |slots| - 1;
      InUse(slots[..n]) + if slots[n].inUse then [slots[n]] else []
  }

  /** The contacts of one sample: at most `MAX_POINTERS`, the rest is ignored. */
  ghost function Contacts(slots: seq<Slot>): (r: seq<Slot>)
    ensures |r| <= MAX_POINTERS
  {
    var all := InUse(slots);
    if |all| <= MAX_POINTERS then all else all[..MAX_POINTERS]
  }

  lemma NoneInUse(slots: seq<Slot>)
    ensures InUse(slots[..0]) == []
  {
  }

  lemma OneMoreInUse(slots: seq<Slot>, n: nat)
    requires n < |slots|
    ensures InUse(slots[..n + 1]) == InUse(slots[..n]) + if slots[n].inUse then [slots[n]] else []
  {
    assert slots[..n + 1][..n] == slots[..n];
  }

  lemma {:induction false} InUsePrefix(slots: seq<Slot>, n: nat)
    requires n <= |slots|
    ensures InUse(slots[..n]) <= InUse(slots)
    decreases |slots| - n
  {
    if n < |slots| {
      InUsePrefix(slots, n + 1);
      assert slots[..n + 1][..n] == slots[..n];
    } else {
      assert slots[..n] == slots;
    }
  }

  lemma {:induction false} InUseComesFrom(slots: seq<Slot>, k: nat) returns (i: nat)
    requires k < |InUse(slots)|
    ensures i < |slots| && slots[i].inUse && InUse(slots)[k] == slots[i] && k == |InUse(slots[..i])|
  {
    var n := |slots| - 1;
    if k < |InUse(slots[..n])| {
      i := InUseComesFrom(slots[..n], k);
      assert slots[..n][..i] == slots[..i];
    } else {
      i := n;
    }
  }

  /** The contacts are the slots in use, in the order of the slots, and when there are more than a sample can hold the
      last ones are left out. */
  lemma ContactsAreInOrder(slots: seq<Slot>) returns (at: seq<nat>)
    ensures |at| == |Contacts(slots)| && Increasing(at)
    ensures forall k :: 0 <= k < |at| ==> at[k] < |slots| && slots[at[k]].inUse && Contacts(slots)[k] == slots[at[k]]
    ensures forall i :: 0 <= i < |slots| && slots[i].inUse && i !in at ==> |at| == MAX_POINTERS && forall k :: 0 <= k < |at| ==> at[k] < i
  {
    at := PlacesInUse(slots);
    if |at| > MAX_POINTERS {
      var first := at[..MAX_POINTERS];
      assert forall m :: 0 <= m < MAX_POINTERS ==> first[m] == at[m] && at[m] in first;
      forall i | 0 <= i < |slots| && slots[i].inUse && i !in first
        ensures forall k :: 0 <= k < MAX_POINTERS ==> at[k] < i
      {
        assert i in at;
        var m :| 0 <= m < |at| && at[m] == i;
        assert m >= MAX_POINTERS;
      }
      at := first;
    }
  }

  /** These are the places of the slots in use among the first `n`. */
  ghost predicate ArePlaces(at: seq<nat>, slots: seq<Slot>, n: nat) {
    && n <= |slots| && |at| == |InUse(slots[..n])| && Increasing(at)
    && (forall k :: 0 <= k < |at| ==> at[k] < n && slots[at[k]].inUse && InUse(slots[..n])[k] == slots[at[k]])
    && forall i :: 0 <= i < n && slots[i].inUse ==> i in at
  }

  lemma OneMorePlace(at: seq<nat>, slots: seq<Slot>, n: nat)
    requires n < |slots| && ArePlaces(at, slots, n)
    ensures ArePlaces(if slots[n].inUse then at + [n] else at, slots, n + 1)
  {
    hide InUse;
    OneMoreInUse(slots, n);
    var more := if slots[n].inUse then at + [n] else at;
    forall i | 0 <= i < n + 1 && slots[i].inUse
      ensures i in more
    {
      assert i == n ==> more[|at|] == n;
    }
  }

  lemma PlacesInUse(slots: seq<Slot>) returns (at: seq<nat>)
    ensures ArePlaces(at, slots, |slots|) && slots[..|slots|] == slots
  {
    hide ArePlaces;
    at := [];
    NoPlaces(slots);
    for n := 0 to |slots|
      invariant ArePlaces(at, slots, n)
    {
      OneMorePlace(at, slots, n);
      at := if slots[n].inUse then at + [n] else at;
    }
  }

  lemma NoPlaces(slots: seq<Slot>)
    ensures ArePlaces([], slots, 0)
  {
  }

  lemma TrackedContacts(slots: seq<Slot>)
    requires Tracked(slots)
    ensures forall k :: 0 <= k < |Contacts(slots)| ==> Contacts(slots)[k].trackingId >= 0
    ensures forall j, k :: 0 <= j < k < |Contacts(slots)| ==> Contacts(slots)[j].trackingId != Contacts(slots)[k].trackingId
  {
    forall k | 0 <= k < |Contacts(slots)|
      ensures Contacts(slots)[k].trackingId >= 0
    {
      var i := InUseComesFrom(slots, k);
    }
    forall j, k | 0 <= j < k < |Contacts(slots)|
      ensures Contacts(slots)[j].trackingId != Contacts(slots)[k].trackingId
    {
      var i := InUseComesFrom(slots, j);
      var i' := InUseComesFrom(slots, k);
      assert i != i';
    }
  }

  /** The switch of `process`: any known axis marks the slot as used, and a negative tracking id under
      the slots protocol releases it while it keeps its contents. */
  function AfterAxisEvent(slot: Slot, event: RawEvent, usingSlotsProtocol: bool): Slot {
    match event
    case TrackingId(value) =>
      if usingSlotsProtocol && value < 0 then slot.(inUse := false)
      else slot.(inUse := true, trackingId := value)
    case PositionX(value) => slot.(inUse := true, x := value)
    case PositionY(value) => slot.(inUse := true, y := value)
    case Pressure(value) => slot.(inUse := true, pressure := value)
    case Tool(tool) => slot.(inUse := true, toolType := tool)
    case Other(value) => slot.(inUse := true, shape := value)
    case SelectSlot(_) => slot
    case Ignored => slot
    case MtReport => slot
  }

  /** Each axis sets its own field of the slot and no other; a contact ends only by a negative tracking id of the
      slots protocol. */
  lemma AxisSetsItsField(slot: Slot, event: RawEvent, usingSlotsProtocol: bool)
    ensures var after, ends := AfterAxisEvent(slot, event, usingSlotsProtocol), usingSlotsProtocol && event.TrackingId? && event.value < 0;
            && after.x == (if event.PositionX? then event.value else slot.x)
            && after.y == (if event.PositionY? then event.value else slot.y)
            && after.pressure == (if event.Pressure? then event.value else slot.pressure)
            && after.toolType == (if event.Tool? then event.tool else slot.toolType)
            && after.shape == (if event.Other? then event.value else slot.shape)
            && after.trackingId == (if event.TrackingId? && !ends then event.value else slot.trackingId)
            && (after.inUse <==> !ends && (slot.inUse || !(event.SelectSlot? || event.Ignored? || event.MtReport?)))
  {
  }

  class MultiTouchMotionAccumulator {
    var currentSlot: int
    const slots: array<Slot>
    const usingSlotsProtocol: bool

    constructor (slotCount: nat, usingSlotsProtocol: bool, initialSlot: int)
      ensures fresh(slots) && slots.Length == slotCount && this.usingSlotsProtocol == usingSlotsProtocol
      ensures forall i :: 0 <= i < slotCount ==> slots[i] == CLEARED
      ensures currentSlot == if usingSlotsProtocol then initialSlot else -1
    {
      this.slots := new Slot[slotCount](i => CLEARED);
      this.usingSlotsProtocol := usingSlotsProtocol;
      currentSlot := if usingSlotsProtocol then initialSlot else -1;
    }

    method ClearSlots(initialSlot: int)
      modifies this, slots
      ensures forall i :: 0 <= i < slots.Length ==> slots[i] == CLEARED
      ensures currentSlot == initialSlot
    {
      for i := 0 to slots.Length
        invariant forall j :: 0 <= j < i ==> slots[j] == CLEARED
      {
        slots[i] := CLEARED;
      }
      currentSlot := initialSlot;
    }

    /** The slot that an axis event will change, if any. */
    ghost function Target(event: RawEvent): int
      reads this
    {
      if event.SelectSlot? && usingSlotsProtocol then event.slot
      else if !usingSlotsProtocol && currentSlot < 0 && !event.MtReport? then 0
      else currentSlot
    }

    /** A driver that follows protocol B announces a contact by a tracking id no other slot in use has,
        before it sends anything else about it. */
    ghost predicate FollowsProtocol(event: RawEvent)
      reads this, slots
    {
      var i := Target(event);
      && usingSlotsProtocol
      && (0 <= i < slots.Length ==>
        match event
        case TrackingId(value) => forall j :: 0 <= j < slots.Length && j != i && slots[j].inUse ==> slots[j].trackingId != value
        case SelectSlot(_) => true
        case Ignored => true
        case MtReport => false
        case _ => slots[i].inUse)
    }

    /** `process`. */
    method Process(event: RawEvent)
      modifies this, slots
      ensures forall j :: 0 <= j < slots.Length && j != old(Target(event)) ==> slots[j] == old(slots[j])
      ensures currentSlot == if event.MtReport? then old(currentSlot) + 1
                             else if usingSlotsProtocol && event.SelectSlot? then event.slot
                             else if !usingSlotsProtocol && old(currentSlot) < 0 then 0 else old(currentSlot)
      ensures forall j :: 0 <= j < slots.Length && !event.MtReport? && j != currentSlot ==> slots[j] == old(slots[j])
      ensures event.MtReport? ==> slots[..] == old(slots[..])
      ensures var i := old(Target(event));
              0 <= i < slots.Length ==> slots[i] == AfterAxisEvent(old(slots[i]), event, usingSlotsProtocol)
      ensures old(Tracked(slots[..]) && FollowsProtocol(event)) ==> Tracked(slots[..])
    {
      if event.MtReport? {
        currentSlot := currentSlot + 1;
        return;
      }
      if usingSlotsProtocol {
        if event.SelectSlot? {
          currentSlot := event.slot;
        }
      } else if currentSlot < 0 {
        currentSlot := 0;
      }
      if 0 <= currentSlot < slots.Length {
        slots[currentSlot] := AfterAxisEvent(slots[currentSlot], event, usingSlotsProtocol);
      }
    }

    /** `finishSync`. */
    method FinishSync()
      modifies this, slots
      ensures usingSlotsProtocol ==> currentSlot == old(currentSlot) && slots[..] == old(slots[..])
      ensures !usingSlotsProtocol ==> currentSlot == -1 && forall i :: 0 <= i < slots.Length ==> slots[i] == CLEARED
    {
      if !usingSlotsProtocol {
        ClearSlots(-1);
      }
    }
  }

  /** What the touch button accumulator and the pressure axis contribute to every contact. */
  datatype Buttons = Buttons(toolType: ToolType, hovering: bool, pressureValid: bool)

  function ToolTypeOf(slot: Slot, buttons: Buttons): ToolType {
    if slot.toolType != Unknown then slot.toolType
    else if buttons.toolType != Unknown then buttons.toolType
    else Finger
  }

  function Hovers(slot: Slot, buttons: Buttons): bool {
    buttons.toolType != Mouse && (buttons.hovering || (buttons.pressureValid && slot.pressure <= 0))
  }

  /** A contact becomes a pointer; its id is given separately. */
  function PointerOf(slot: Slot, buttons: Buttons, id: nat): Pointer {
    Pointer(id, slot.x, slot.y, ToolTypeOf(slot, buttons), Hovers(slot, buttons), slot.shape)
  }

  /** The pointers filled in so far with their ids: `ids` lists the ids of the first ones. */
  ghost predicate Listed(r: RawPointerData, ids: seq<nat>) {
    && r.Sized() && |ids| <= MAX_POINTERS
    && (forall i :: 0 <= i < |ids| ==> ids[i] <= MAX_POINTER_ID && r.pointers[i].id == ids[i])
    && (forall i :: 0 <= i < |ids| ==> r.idToIndex[ids[i]] < |ids| && ids[r.idToIndex[ids[i]]] == ids[i])
    && (forall n :: n in r.touchingIdBits <==> ListsId(r, ids, n, false))
    && (forall n :: n in r.hoveringIdBits <==> ListsId(r, ids, n, true))
  }

  ghost predicate ListsId(r: RawPointerData, ids: seq<nat>, n: nat, hovering: bool)
    requires |ids| <= |r.pointers|
  {
    exists i :: 0 <= i < |ids| && ids[i] == n && r.pointers[i].isHovering == hovering
  }

  lemma ListOneMore(r: RawPointerData, ids: seq<nat>, p: Pointer)
    requires Listed(r, ids) && |ids| < MAX_POINTERS && p.id <= MAX_POINTER_ID
    ensures Listed(r.(pointers := r.pointers[|ids| := p]).WithId(|ids|, p.id), ids + [p.id])
  {
    var k := |ids|;
    var r' := r.(pointers := r.pointers[k := p]).WithId(k, p.id);
    var ids' := ids + [p.id];
    assert r'.pointers == r.pointers[k := p];
    forall n
      ensures n in r'.touchingIdBits <==> ListsId(r', ids', n, false)
      ensures n in r'.hoveringIdBits <==> ListsId(r', ids', n, true)
    {
      ListsOneMore(r, r', ids, p, n, false);
      ListsOneMore(r, r', ids, p, n, true);
    }
  }

  lemma ListsOneMore(r: RawPointerData, r': RawPointerData, ids: seq<nat>, p: Pointer, n: nat, hovering: bool)
    requires |ids| < |r.pointers| && r'.pointers == r.pointers[|ids| := p]
    ensures ListsId(r', ids + [p.id], n, hovering) <==> ListsId(r, ids, n, hovering) || (n == p.id && p.isHovering == hovering)
  {
    var ids' := ids + [p.id];
    if ListsId(r, ids, n, hovering) {
      var i :| 0 <= i < |ids| && ids[i] == n && r.pointers[i].isHovering == hovering;
      assert ids'[i] == n && r'.pointers[i].isHovering == hovering;
    }
    if n == p.id && p.isHovering == hovering {
      assert ids'[|ids|] == n && r'.pointers[|ids|].isHovering == hovering;
    }
  }

  /** A complete sample has distinct ids. */
  lemma CompleteIsDistinct(r: RawPointerData, ids: seq<nat>)
    requires Listed(r, ids) && r.pointerCount == |ids| && r.HasIds()
    ensures forall i, j :: 0 <= i < j < |ids| ==> ids[i] != ids[j]
  {
    IdsAreABijection(r);
  }

  ghost function OwnersOf(ids: seq<nat>): map<nat, nat> {
    map i: nat | 0 <= i < |ids| :: ids[i]
  }

  lemma DistinctOwners(r: RawPointerData, ids: seq<nat>)
    requires Listed(r, ids)
    requires forall i, j :: 0 <= i < j < |ids| ==> ids[i] != ids[j]
    ensures r.IdsAre(OwnersOf(ids))
  {
    forall n
      ensures n in r.touchingIdBits <==> exists i :: i in OwnersOf(ids) && OwnersOf(ids)[i] == n && !r.pointers[i].isHovering
    {
      OwnerOf(r, ids, n, false);
    }
    forall n
      ensures n in r.hoveringIdBits <==> exists i :: i in OwnersOf(ids) && OwnersOf(ids)[i] == n && r.pointers[i].isHovering
    {
      OwnerOf(r, ids, n, true);
    }
  }

  lemma OwnerOf(r: RawPointerData, ids: seq<nat>, n: nat, hovering: bool)
    requires |ids| <= |r.pointers|
    ensures ListsId(r, ids, n, hovering) <==>
              exists i :: i in OwnersOf(ids) && OwnersOf(ids)[i] == n && r.pointers[i].isHovering == hovering
  {
    if ListsId(r, ids, n, hovering) {
      var i :| 0 <= i < |ids| && ids[i] == n && r.pointers[i].isHovering == hovering;
      assert i in OwnersOf(ids) && OwnersOf(ids)[i] == n;
    }
  }

  /** Distinct ids make a complete sample. */
  lemma DistinctIsComplete(r: RawPointerData, ids: seq<nat>)
    requires Listed(r, ids) && r.pointerCount == |ids|
    requires forall i, j :: 0 <= i < j < |ids| ==> ids[i] != ids[j]
    ensures r.HasIds()
  {
    DistinctOwners(r, ids);
    assert OwnersOf(ids).Keys == Range(|ids|);
    AllHaveIds(r, OwnersOf(ids));
  }

  // ----- the tracking-id table -----

  /** The marked ids stand for distinct, non-negative tracking ids. */
  ghost predicate TableOk(bits: set<nat>, table: seq<int>) {
    && |table| == MAX_POINTER_ID + 1 && Below(bits, |table|)
    && (forall n :: n in bits ==> table[n] >= 0)
    && forall m, n :: m in bits && n in bits && table[m] == table[n] ==> m == n
  }

  /** `bits` and `table` extend `bits0` and `table0`. */
  ghost predicate TableGrows(bits0: set<nat>, table0: seq<int>, bits: set<nat>, table: seq<int>) {
    && bits0 <= bits && |table0| == |table| && Below(bits0, |table|)
    && forall n :: n in bits0 ==> table[n] == table0[n]
  }

  /** The ids of a sample and the contacts they were given to. */
  ghost predicate IdsMatch(ids: seq<nat>, contacts: seq<Slot>, bits: set<nat>, table: seq<int>) {
    && |ids| == |contacts|
    && forall i :: 0 <= i < |ids| ==> ids[i] in bits && ids[i] < |table| && table[ids[i]] == contacts[i].trackingId
  }

  lemma IdsDistinctIffContactsAre(ids: seq<nat>, contacts: seq<Slot>, bits: set<nat>, table: seq<int>)
    requires TableOk(bits, table) && IdsMatch(ids, contacts, bits, table)
    ensures forall i, j :: 0 <= i < |ids| && 0 <= j < |ids| ==> (ids[i] == ids[j] <==> contacts[i].trackingId == contacts[j].trackingId)
  {
  }

  ghost function ToSet(ids: seq<nat>): set<nat> {
    set i | 0 <= i < |ids| :: ids[i]
  }

  lemma ToSetAppend(ids: seq<nat>, id: nat)
    ensures ToSet(ids + [id]) == ToSet(ids) + {id}
    ensures |ToSet(ids + [id])| <= |ToSet(ids)| + 1
  {
    var ids' := ids + [id];
    forall n
      ensures n in ToSet(ids') <==> n in ToSet(ids) + {id}
    {
      if n in ToSet(ids) {
        var i :| 0 <= i < |ids| && ids[i] == n;
        assert ids'[i] == n;
      }
      assert ids'[|ids|] == id;
    }
  }

  lemma MatchOneMore(ids: seq<nat>, id: nat, seen: seq<Slot>, slot: Slot, bits: set<nat>, table: seq<int>)
    requires IdsMatch(ids, seen, bits, table) && ToSet(ids) <= bits
    requires id in bits && id < |table| && table[id] == slot.trackingId
    ensures IdsMatch(ids + [id], seen + [slot], bits, table)
    ensures ToSet(ids + [id]) == ToSet(ids) + {id} <= bits
    ensures |ToSet(ids + [id])| <= |ToSet(ids)| + 1
  {
    ToSetAppend(ids, id);
  }

  lemma TableIsLong(bits: set<nat>, table: seq<int>)
    requires TableOk(bits, table)
    ensures |table| == MAX_POINTER_ID + 1 && Below(bits, MAX_POINTER_ID + 1)
    ensures TableGrows(bits, table, bits, table)
  {
  }

  /** What was in the table is still there. */
  lemma MatchGrows(ids: seq<nat>, seen: seq<Slot>, bits: set<nat>, table: seq<int>, bits': set<nat>, table': seq<int>)
    requires TableGrows(bits, table, bits', table')
    ensures bits <= bits' && (IdsMatch(ids, seen, bits, table) ==> IdsMatch(ids, seen, bits', table'))
  {
  }

  lemma GrowsOn(bits0: set<nat>, table0: seq<int>, bits: set<nat>, table: seq<int>, bits': set<nat>, table': seq<int>)
    requires TableGrows(bits0, table0, bits, table) && TableGrows(bits, table, bits', table')
    ensures TableGrows(bits0, table0, bits', table')
  {
  }

  class MultiTouchInputMapper {
    var pointerIdBits: set<nat>
    const pointerTrackingIdMap: array<int>
    var havePointerIds: bool
    const accumulator: MultiTouchMotionAccumulator

    ghost predicate Valid()
      reads this`pointerIdBits, pointerTrackingIdMap
    {
      TableOk(pointerIdBits, pointerTrackingIdMap[..]) && |pointerIdBits| <= MAX_POINTERS
    }

    constructor (accumulator: MultiTouchMotionAccumulator)
      ensures Valid() && fresh(pointerTrackingIdMap) && this.accumulator == accumulator
      ensures pointerIdBits == {} && !havePointerIds
    {
      pointerIdBits := {};
      pointerTrackingIdMap := new int[MAX_POINTER_ID + 1](i => 0);
      havePointerIds := false;
      this.accumulator := accumulator;
    }

    /** `reset` of the slots and the table. */
    method Reset(initialSlot: int)
      modifies this, accumulator, accumulator.slots
      ensures pointerIdBits == {} && !havePointerIds
      ensures forall i :: 0 <= i < accumulator.slots.Length ==> accumulator.slots[i] == CLEARED
    {
      accumulator.ClearSlots(if accumulator.usingSlotsProtocol then initialSlot else -1);
      pointerIdBits := {};
      havePointerIds := false;
    }

    /** A new tracking id takes the first free pointer id. */
    method MarkFirstFree(trackingId: int) returns (id: nat)
      requires TableOk(pointerIdBits, pointerTrackingIdMap[..]) && |pointerIdBits| <= MAX_POINTER_ID
      requires trackingId >= 0 && forall n :: n in pointerIdBits ==> pointerTrackingIdMap[n] != trackingId
      modifies this`pointerIdBits, pointerTrackingIdMap
      ensures TableOk(pointerIdBits, pointerTrackingIdMap[..])
      ensures TableGrows(old(pointerIdBits), old(pointerTrackingIdMap[..]), pointerIdBits, pointerTrackingIdMap[..])
      ensures id == FirstUnmarked(old(pointerIdBits)) && id < pointerTrackingIdMap.Length && pointerTrackingIdMap[id] == trackingId
      ensures pointerIdBits == old(pointerIdBits) + {id}
    {
      id := FirstUnmarked(pointerIdBits);
      pointerIdBits := pointerIdBits + {id};
      pointerTrackingIdMap[id] := trackingId;
    }

    /** Looks the tracking id up among the marked ids and, if it is new, marks the first free one. */
    method IdForTracking(trackingId: int) returns (id: int)
      requires TableOk(pointerIdBits, pointerTrackingIdMap[..])
      modifies this`pointerIdBits, pointerTrackingIdMap
      ensures TableOk(pointerIdBits, pointerTrackingIdMap[..])
      ensures TableGrows(old(pointerIdBits), old(pointerTrackingIdMap[..]), pointerIdBits, pointerTrackingIdMap[..])
      ensures id >= 0 ==> id in pointerIdBits && pointerTrackingIdMap[id] == trackingId
      ensures id < 0 ==> pointerIdBits == old(pointerIdBits) && (trackingId < 0 || |pointerIdBits| == MAX_POINTER_ID + 1)
      ensures trackingId < 0 ==> id < 0
      ensures id >= 0 && id !in old(pointerIdBits) ==> id == FirstUnmarked(old(pointerIdBits))
      ensures pointerIdBits == if id >= 0 then old(pointerIdBits) + {id} else old(pointerIdBits)
    {
      id := -1;
      if trackingId < 0 {
        return;
      }
      var idBits := pointerIdBits;
      while idBits != {}
        invariant idBits <= pointerIdBits
        invariant id >= 0 ==> id in pointerIdBits && pointerTrackingIdMap[id] == trackingId
        invariant id < 0 ==> forall n :: n in pointerIdBits && pointerTrackingIdMap[n] == trackingId ==> n in idBits
        decreases |idBits|
      {
        var n := FirstMarked(idBits);
        idBits := idBits - {n};
        if pointerTrackingIdMap[n] == trackingId {
          id := n;
        }
      }
      BelowSize(pointerIdBits, MAX_POINTER_ID + 1);
      if id < 0 && |pointerIdBits| != MAX_POINTER_ID + 1 {
        id := MarkFirstFree(trackingId);
      }
    }

    /** What one sample is, given the table before and after it. */
    ghost predicate IsSample(r: RawPointerData, contacts: seq<Slot>, buttons: Buttons, bits0: set<nat>, table0: seq<int>)
      reads this`pointerIdBits, this`havePointerIds, pointerTrackingIdMap
    {
      && r.Sized() && r.pointerCount == |contacts|
      && (forall i :: 0 <= i < |contacts| ==> r.pointers[i] == PointerOf(contacts[i], buttons, r.pointers[i].id))
      && (havePointerIds <==> AllTracked(contacts))
      && (!havePointerIds ==> r.touchingIdBits == {} && r.hoveringIdBits == {} && pointerIdBits == {})
      && (havePointerIds ==> IdsTracked(r, contacts, bits0, table0))
    }

    /** The ids of the sample are exactly the marked ones, the table names their contacts, and it agrees
        with the table before about every id that was marked then. */
    ghost predicate IdsTracked(r: RawPointerData, contacts: seq<Slot>, bits0: set<nat>, table0: seq<int>)
      reads this`pointerIdBits, this`havePointerIds, pointerTrackingIdMap
      requires r.pointerCount <= |r.pointers|
    {
      var ids := IdsOf(r);
      var table := pointerTrackingIdMap[..];
      && Listed(r, ids) && pointerIdBits == ToSet(ids) && IdsMatch(ids, contacts, pointerIdBits, table)
      && (r.HasIds() <==> DistinctContacts(contacts))
      && forall i :: 0 <= i < |ids| ==> KeepsId(ids[i], contacts[i], bits0, table0)
    }

    /** What holds between two slots: `seen` are the contacts so far. */
    ghost predicate Scanning(r: RawPointerData, newPointerIdBits: set<nat>, ids: seq<nat>, seen: seq<Slot>, buttons: Buttons)
      reads this`pointerIdBits, this`havePointerIds, pointerTrackingIdMap
    {
      && r.Sized() && |seen| <= MAX_POINTERS && Copied(r, seen, buttons)
      && TableOk(pointerIdBits, pointerTrackingIdMap[..])
      && (havePointerIds <==> AllTracked(seen))
      && (!havePointerIds ==> r.touchingIdBits == {} && r.hoveringIdBits == {} && newPointerIdBits == {})
      && (havePointerIds ==>
            && Listed(r, ids) && newPointerIdBits == ToSet(ids) && newPointerIdBits <= pointerIdBits
            && |newPointerIdBits| <= |seen|
            && IdsMatch(ids, seen, pointerIdBits, pointerTrackingIdMap[..]))
    }

    /** The loop body for a slot in use. */
    method AddContact(inSlot: Slot, buttons: Buttons, outCount: nat, outState: RawPointerData, newBits: set<nat>,
                      ghost ids0: seq<nat>, ghost seen: seq<Slot>)
      returns (r: RawPointerData, newPointerIdBits: set<nat>, ghost ids: seq<nat>)
      requires Scanning(outState, newBits, ids0, seen, buttons) && outCount == |seen| < MAX_POINTERS
      requires |pointerIdBits| <= MAX_POINTERS + outCount
      modifies this`pointerIdBits, this`havePointerIds, pointerTrackingIdMap
      ensures Scanning(r, newPointerIdBits, ids, seen + [inSlot], buttons)
      ensures |pointerIdBits| <= |old(pointerIdBits)| + 1
      ensures TableGrows(old(pointerIdBits), old(pointerTrackingIdMap[..]), pointerIdBits, pointerTrackingIdMap[..])
    {
      hide TableOk, TableGrows, Listed, IdsMatch, Copied, AllTracked, ToSet;
      TrackedOneMore(seen, inSlot);
      TableIsLong(pointerIdBits, pointerTrackingIdMap[..]);
      r, newPointerIdBits, ids := outState, newBits, ids0;
      var outPointer := PointerOf(inSlot, buttons, r.pointers[outCount].id);
      if havePointerIds {
        ghost var bits, table := pointerIdBits, pointerTrackingIdMap[..];
        var id := IdForTracking(inSlot.trackingId);
        TableIsLong(pointerIdBits, pointerTrackingIdMap[..]);
        MatchGrows(ids, seen, bits, table, pointerIdBits, pointerTrackingIdMap[..]);
        if id < 0 {
          havePointerIds := false;
          r := r.(pointers := r.pointers[outCount := outPointer]).ClearIdBits();
          newPointerIdBits := {};
        } else {
          ListOneMore(r, ids, outPointer.(id := id));
          MatchOneMore(ids, id, seen, inSlot, pointerIdBits, pointerTrackingIdMap[..]);
          r := r.(pointers := r.pointers[outCount := outPointer.(id := id)]).WithId(outCount, id);
          ids := ids + [id];
          newPointerIdBits := newPointerIdBits + {id};
        }
      } else {
        r := r.(pointers := r.pointers[outCount := outPointer]);
      }
      CopyOneMore(outState, r, seen, inSlot, buttons);
    }

    lemma GrowsFromItself()
      requires Valid()
      ensures TableGrows(pointerIdBits, pointerTrackingIdMap[..], pointerIdBits, pointerTrackingIdMap[..]) && |pointerIdBits| <= MAX_POINTERS
    {
    }

    lemma NothingScanned(r: RawPointerData, buttons: Buttons)
      requires Valid() && havePointerIds && r.Sized() && r.touchingIdBits == {} && r.hoveringIdBits == {}
      ensures Scanning(r, {}, [], [], buttons)
    {
    }

    /** The loop over the slots. */
    method ScanSlots(slots: seq<Slot>, buttons: Buttons, outState: RawPointerData)
      returns (r: RawPointerData, newPointerIdBits: set<nat>, outCount: nat, ghost ids: seq<nat>)
      requires Valid() && outState.Sized()
      requires outState.touchingIdBits == {} && outState.hoveringIdBits == {}
      modifies this`pointerIdBits, this`havePointerIds, pointerTrackingIdMap
      ensures Scanning(r, newPointerIdBits, ids, Contacts(slots), buttons) && outCount == |Contacts(slots)|
      ensures TableGrows(old(pointerIdBits), old(pointerTrackingIdMap[..]), pointerIdBits, pointerTrackingIdMap[..])
    {
      hide Scanning, TableGrows, Valid, InUse, Contacts;
      GrowsFromItself();
      newPointerIdBits, outCount, havePointerIds := {}, 0, true;
      r, ids := outState, [];
      NothingScanned(r, buttons);
      NoneInUse(slots);
      ghost var seen: seq<Slot> := [];
      var inIndex := 0;
      while inIndex < |slots|
        invariant inIndex <= |slots|
        invariant seen == InUse(slots[..inIndex]) && outCount == |seen| <= MAX_POINTERS
        invariant Scanning(r, newPointerIdBits, ids, seen, buttons)
        invariant |pointerIdBits| <= MAX_POINTERS + outCount
        invariant TableGrows(old(pointerIdBits), old(pointerTrackingIdMap[..]), pointerIdBits, pointerTrackingIdMap[..])
      {
        OneMoreInUse(slots, inIndex);
        if slots[inIndex].inUse {
          if outCount >= MAX_POINTERS {
            break;
          }
          ghost var bits, table := pointerIdBits, pointerTrackingIdMap[..];
          r, newPointerIdBits, ids := AddContact(slots[inIndex], buttons, outCount, r, newPointerIdBits, ids, seen);
          GrowsOn(old(pointerIdBits), old(pointerTrackingIdMap[..]), bits, table, pointerIdBits, pointerTrackingIdMap[..]);
          seen := seen + [slots[inIndex]];
          outCount := outCount + 1;
        }
        inIndex := inIndex + 1;
      }
      ScannedAll(slots, inIndex);
    }

    /** `syncTouch`. */
    method SyncTouch(buttons: Buttons, outState: RawPointerData) returns (r: RawPointerData)
      requires Valid() && outState.Sized()
      requires outState.touchingIdBits == {} && outState.hoveringIdBits == {}
      modifies this, pointerTrackingIdMap, accumulator, accumulator.slots
      ensures Valid()
      ensures IsSample(r, old(Contacts(accumulator.slots[..])), buttons, old(pointerIdBits), old(pointerTrackingIdMap[..]))
      ensures old(Tracked(accumulator.slots[..])) ==> havePointerIds && r.HasIds()
      ensures if accumulator.usingSlotsProtocol
              then accumulator.slots[..] == old(accumulator.slots[..]) && accumulator.currentSlot == old(accumulator.currentSlot)
              else forall i :: 0 <= i < accumulator.slots.Length ==> accumulator.slots[i] == CLEARED
    {
      hide Scanning, Valid, TableGrows, Contacts, Tracked, IsSample;
      var slots := accumulator.slots[..];
      var newPointerIdBits, outCount;
      ghost var ids;
      r, newPointerIdBits, outCount, ids := ScanSlots(slots, buttons, outState);
      ghost var scanned := r;
      r := r.(pointerCount := outCount);
      ScanIsSample(scanned, r, newPointerIdBits, ids, slots, buttons, old(pointerIdBits), old(pointerTrackingIdMap[..]));
      pointerIdBits := newPointerIdBits;
      SampleIsWhole(r, ids, Contacts(slots), buttons, old(pointerIdBits), old(pointerTrackingIdMap[..]));
      if Tracked(slots) {
        TrackedGive(r, slots, buttons, old(pointerIdBits), old(pointerTrackingIdMap[..]));
      }
      accumulator.FinishSync();
    }

    /** What the scan of the slots leaves is a sample, once the marked ids are its own. */
    ghost predicate Scanned(r: RawPointerData, newPointerIdBits: set<nat>, ids: seq<nat>, contacts: seq<Slot>, buttons: Buttons,
                            bits0: set<nat>, table0: seq<int>)
      reads this`havePointerIds, pointerTrackingIdMap
    {
      && r.Sized() && r.pointerCount == |contacts|
      && (forall i :: 0 <= i < |contacts| ==> r.pointers[i] == PointerOf(contacts[i], buttons, r.pointers[i].id))
      && (havePointerIds <==> AllTracked(contacts))
      && TableOk(newPointerIdBits, pointerTrackingIdMap[..]) && |newPointerIdBits| <= MAX_POINTERS
      && (!havePointerIds ==> r.touchingIdBits == {} && r.hoveringIdBits == {} && newPointerIdBits == {})
      && (havePointerIds ==>
            && ids == IdsOf(r) && Listed(r, ids) && newPointerIdBits == ToSet(ids)
            && IdsMatch(ids, contacts, newPointerIdBits, pointerTrackingIdMap[..])
            && (r.HasIds() <==> DistinctContacts(contacts))
            && forall i :: 0 <= i < |ids| ==> KeepsId(ids[i], contacts[i], bits0, table0))
    }

    lemma ScanIsSample(scanned: RawPointerData, r: RawPointerData, newPointerIdBits: set<nat>, ids: seq<nat>, slots: seq<Slot>, buttons: Buttons,
                       bits0: set<nat>, table0: seq<int>)
      requires Scanning(scanned, newPointerIdBits, ids, Contacts(slots), buttons) && r == scanned.(pointerCount := |Contacts(slots)|)
      requires TableGrows(bits0, table0, pointerIdBits, pointerTrackingIdMap[..])
      ensures Scanned(r, newPointerIdBits, ids, Contacts(slots), buttons, bits0, table0)
    {
      hide Listed, IdsMatch, TableGrows, AllTracked, DistinctContacts, RawPointerData.HasIds, KeepsId, Contacts;
      var contacts := Contacts(slots);
      CopiedIs(scanned, contacts, buttons);
      CountDoesNotMatter(scanned, r, ids);
      SubsetTable(newPointerIdBits, pointerIdBits, pointerTrackingIdMap[..]);
      if havePointerIds {
        IdsAreListed(r, ids, contacts, pointerIdBits, pointerTrackingIdMap[..]);
        IdsGive(r, ids, contacts, bits0, table0, pointerIdBits, pointerTrackingIdMap[..]);
      }
    }

    lemma SampleIsWhole(r: RawPointerData, ids: seq<nat>, contacts: seq<Slot>, buttons: Buttons, bits0: set<nat>, table0: seq<int>)
      requires Scanned(r, pointerIdBits, ids, contacts, buttons, bits0, table0)
      ensures Valid() && IsSample(r, contacts, buttons, bits0, table0)
    {
      hide Listed, IdsMatch, AllTracked, DistinctContacts, RawPointerData.HasIds, KeepsId, TableOk, IdsOf;
    }

    /** What the sample says of each contact: its place, its tool, and whether it touches or hovers. */
    lemma SampleTells(r: RawPointerData, contacts: seq<Slot>, buttons: Buttons, bits0: set<nat>, table0: seq<int>, i: nat)
      requires IsSample(r, contacts, buttons, bits0, table0) && i < |contacts|
      ensures i < |r.pointers| && r.pointers[i].x == contacts[i].x && r.pointers[i].y == contacts[i].y && r.pointers[i].shape == contacts[i].shape
      ensures contacts[i].toolType != Unknown ==> r.pointers[i].toolType == contacts[i].toolType
      ensures contacts[i].toolType == Unknown && buttons.toolType != Unknown ==> r.pointers[i].toolType == buttons.toolType
      ensures contacts[i].toolType == Unknown == buttons.toolType ==> r.pointers[i].toolType == Finger
      ensures buttons.toolType == Mouse ==> !r.pointers[i].isHovering
      ensures buttons.toolType != Mouse && buttons.hovering ==> r.pointers[i].isHovering
      ensures buttons.toolType != Mouse && !buttons.hovering ==>
                (r.pointers[i].isHovering <==> buttons.pressureValid && contacts[i].pressure <= 0)
      ensures havePointerIds ==> var id := r.pointers[i].id;
                id <= MAX_POINTER_ID && pointerTrackingIdMap.Length > id && pointerTrackingIdMap[id] == contacts[i].trackingId
                && if r.pointers[i].isHovering then id in r.hoveringIdBits else id in r.touchingIdBits
    {
      if havePointerIds {
        ListsItself(r, IdsOf(r), i);
      }
    }

    /** Slots that the kernel tracks make a complete sample. */
    lemma TrackedGive(r: RawPointerData, slots: seq<Slot>, buttons: Buttons, bits0: set<nat>, table0: seq<int>)
      requires Tracked(slots) && IsSample(r, Contacts(slots), buttons, bits0, table0)
      ensures havePointerIds && r.HasIds()
    {
      hide Listed, IdsMatch, RawPointerData.HasIds, KeepsId, IdsOf, Contacts, Tracked;
      TrackedContacts(slots);
    }
  }

  lemma ListsItself(r: RawPointerData, ids: seq<nat>, i: nat)
    requires Listed(r, ids) && i < |ids|
    ensures r.pointers[i].id == ids[i] <= MAX_POINTER_ID
    ensures if r.pointers[i].isHovering then ids[i] in r.hoveringIdBits else ids[i] in r.touchingIdBits
  {
    assert ListsId(r, ids, ids[i], r.pointers[i].isHovering);
  }

  lemma CountDoesNotMatter(r: RawPointerData, r': RawPointerData, ids: seq<nat>)
    requires r' == r.(pointerCount := r'.pointerCount) && r.Sized() && r'.pointerCount <= MAX_POINTERS
    ensures r'.Sized() && Listed(r', ids) == Listed(r, ids)
  {
    if r.Sized() && |ids| <= MAX_POINTERS {
      assert forall n, hovering :: ListsId(r', ids, n, hovering) == ListsId(r, ids, n, hovering);
    }
  }

  lemma CopiedIs(r: RawPointerData, contacts: seq<Slot>, buttons: Buttons)
    requires |contacts| <= |r.pointers| && Copied(r, contacts, buttons)
    ensures forall i :: 0 <= i < |contacts| ==> r.pointers[i] == PointerOf(contacts[i], buttons, r.pointers[i].id)
  {
  }

  lemma IdsAreListed(r: RawPointerData, ids: seq<nat>, contacts: seq<Slot>, bits: set<nat>, table: seq<int>)
    requires Listed(r, ids) && IdsMatch(ids, contacts, bits, table) && r.pointerCount == |contacts|
    ensures |ids| == |contacts| && IdsOf(r) == ids
  {
  }

  ghost predicate AllTracked(contacts: seq<Slot>) {
    forall i :: 0 <= i < |contacts| ==> contacts[i].trackingId >= 0
  }

  lemma ScannedAll(slots: seq<Slot>, n: nat)
    requires n <= |slots| && |InUse(slots[..n])| <= MAX_POINTERS
    requires n == |slots| || (slots[n].inUse && |InUse(slots[..n])| == MAX_POINTERS)
    ensures InUse(slots[..n]) == Contacts(slots)
  {
    if n == |slots| {
      assert slots[..n] == slots;
    } else {
      assert slots[..n + 1][..n] == slots[..n];
      InUsePrefix(slots, n + 1);
    }
  }

  lemma SubsetTable(bits: set<nat>, all: set<nat>, table: seq<int>)
    requires TableOk(all, table) && bits <= all
    ensures TableOk(bits, table)
  {
  }

  lemma IdsGive(r: RawPointerData, ids: seq<nat>, contacts: seq<Slot>, bits0: set<nat>, table0: seq<int>, bits: set<nat>, table: seq<int>)
    requires Listed(r, ids) && r.pointerCount == |ids|
    requires TableOk(bits, table) && TableGrows(bits0, table0, bits, table) && IdsMatch(ids, contacts, bits, table)
    ensures forall i :: 0 <= i < |ids| ==> KeepsId(ids[i], contacts[i], bits0, table0)
    ensures r.HasIds() <==> DistinctContacts(contacts)
    ensures IdsMatch(ids, contacts, ToSet(ids), table)
  {
    IdsDistinctIffContactsAre(ids, contacts, bits, table);
    if DistinctContacts(contacts) {
      DistinctIsComplete(r, ids);
    }
    if r.HasIds() {
      CompleteIsDistinct(r, ids);
    }
  }

  ghost function IdsOf(r: RawPointerData): seq<nat>
    requires r.pointerCount <= |r.pointers|
  {
    seq(r.pointerCount, i requires 0 <= i < r.pointerCount => r.pointers[i].id)
  }

  ghost predicate Copied(r: RawPointerData, contacts: seq<Slot>, buttons: Buttons)
    requires |contacts| <= |r.pointers|
  {
    forall i :: 0 <= i < |contacts| ==> r.pointers[i] == PointerOf(contacts[i], buttons, r.pointers[i].id)
  }

  lemma CopyOneMore(r: RawPointerData, r': RawPointerData, seen: seq<Slot>, slot: Slot, buttons: Buttons)
    requires |seen| < |r.pointers| == |r'.pointers| && Copied(r, seen, buttons)
    requires forall i :: 0 <= i < |seen| ==> r'.pointers[i] == r.pointers[i]
    requires r'.pointers[|seen|] == PointerOf(slot, buttons, r'.pointers[|seen|].id)
    ensures Copied(r', seen + [slot], buttons)
  {
  }

  lemma TrackedOneMore(seen: seq<Slot>, slot: Slot)
    ensures AllTracked(seen + [slot]) <==> AllTracked(seen) && slot.trackingId >= 0
  {
    assert (seen + [slot])[|seen|] == slot && (seen + [slot])[..|seen|] == seen;
  }

  ghost predicate DistinctContacts(contacts: seq<Slot>) {
    forall i, j :: 0 <= i < j < |contacts| ==> contacts[i].trackingId != contacts[j].trackingId
  }

  /** A contact that was in the table keeps its id; another one gets an id that was not marked. */
  ghost predicate KeepsId(id: nat, contact: Slot, bits0: set<nat>, table0: seq<int>) {
    && (forall n :: n in bits0 && n < |table0| && table0[n] == contact.trackingId ==> id == n)
    && (id in bits0 && id < |table0| ==> table0[id] == contact.trackingId)
  }

  /** `bits` and `table` are what one sample leaves for the next.  A contact keeps its id exactly as it keeps its
      tracking id, and no other contact of the new sample can get an id that was in use. */
  lemma ConsecutiveSamplesKeepIds(ids0: seq<nat>, contacts0: seq<Slot>, bits: set<nat>, table: seq<int>,
                                  ids1: seq<nat>, contacts1: seq<Slot>, i: nat, j: nat)
    requires IdsMatch(ids0, contacts0, bits, table) && bits == ToSet(ids0) && |ids1| == |contacts1|
    requires forall k :: 0 <= k < |ids1| ==> KeepsId(ids1[k], contacts1[k], bits, table)
    requires i < |ids0| && j < |ids1|
    ensures ids1[j] == ids0[i] <==> contacts1[j].trackingId == contacts0[i].trackingId
  {
    assert ids0[i] in bits && table[ids0[i]] == contacts0[i].trackingId;
    assert KeepsId(ids1[j], contacts1[j], bits, table);
  }
}
