/** The motion events of a touch device in direct mode, as functions of the cooked samples, and the
    listener that replays them. */
module TouchStream {
  import opened BitSets
  import opened RawPointers

  // ----- cooked samples -----

  /** `PointerProperties` and `PointerCoords` of one pointer. */
  datatype Sample = Sample(id: nat, toolType: ToolType, x: int, y: int, shape: int)

  /** `CookedPointerData`.  As in the source the arrays keep stale contents past `pointerCount`, and
      `idToIndex` keeps stale entries for ids that are no longer present. */
  datatype CookedPointerData = CookedPointerData(
    pointerCount: nat, samples: seq<Sample>,
    hoveringIdBits: set<nat>, touchingIdBits: set<nat>, idToIndex: seq<nat>)
  {
    ghost predicate Sized() {
      && |samples| == MAX_POINTERS && |idToIndex| == MAX_POINTER_ID + 1 && pointerCount <= MAX_POINTERS
      && (forall n :: 0 <= n < |idToIndex| ==> idToIndex[n] < MAX_POINTERS)
      && Below(Ids(), MAX_POINTER_ID + 1)
    }

    function Ids(): set<nat> {
      touchingIdBits + hoveringIdBits
    }

    /** `findActiveIdBits`. */
    function ActiveIdBits(): set<nat> {
      if touchingIdBits != {} then touchingIdBits else hoveringIdBits
    }

    /** Every pointer is found under its own id. */
    ghost predicate Valid() {
      && Sized()
      && touchingIdBits * hoveringIdBits == {}
      && (forall id :: id in Ids() ==> idToIndex[id] < pointerCount && samples[idToIndex[id]].id == id)
      && (forall i :: 0 <= i < pointerCount ==> samples[i].id in Ids() && idToIndex[samples[i].id] == i)
      && (pointerCount == 0 <==> Ids() == {})
    }

    /** What a table lookup by id yields, stale or not. */
    function SampleFor(id: nat): Sample
      requires Sized() && id <= MAX_POINTER_ID
    {
      samples[idToIndex[id]]
    }

    /** `clear`. */
    function Clear(): CookedPointerData {
      this.(pointerCount := 0, hoveringIdBits := {}, touchingIdBits := {})
    }

    /** `copyFrom` overwrites the entries of the other sample's pointers only. */
    function CopyFrom(other: CookedPointerData): CookedPointerData
      requires Sized() && other.Sized()
    {
      CookedPointerData(
        other.pointerCount,
        seq(MAX_POINTERS, i requires 0 <= i < MAX_POINTERS => if i < other.pointerCount then other.samples[i] else samples[i]),
        other.hoveringIdBits, other.touchingIdBits,
        seq(MAX_POINTER_ID + 1, id requires 0 <= id <= MAX_POINTER_ID =>
          if exists i :: 0 <= i < other.pointerCount && other.samples[i].id == id then other.idToIndex[id] else idToIndex[id]))
    }
  }

  datatype CookedState = CookedState(data: CookedPointerData, buttonState: set<nat>)

  // ----- events -----

  datatype Action =
    | Down | Up | Move | Cancel
    | PointerDown(index: nat) | PointerUp(index: nat)
    | HoverEnter | HoverMove | HoverExit
    | ButtonPress(button: nat) | ButtonRelease(button: nat)

  /** What a caller asks `dispatchMotion` for: some action, or one pointer going down or up. */
  datatype Request = Plain(action: Action) | OneDown(id: nat) | OneUp(id: nat)

  datatype Event =
    | Motion(action: Action, ids: seq<nat>, samples: seq<Sample>, buttonState: set<nat>)
    | DeviceReset

  ghost function IndexIn(order: seq<nat>, id: nat): (k: nat)
    requires id in order
    ensures k < |order| && order[k] == id
  {
    if order[0] == id then 0 else 1 + IndexIn(order[1..], id)
  }

  /** The first pointer going down and the last one going up have actions of their own. */
  ghost function ActionFor(request: Request, order: seq<nat>): Action
    requires request.OneDown? || request.OneUp? ==> request.id in order
  {
    match request
    case Plain(action) => action
    case OneDown(id) => if |order| == 1 then Down else PointerDown(IndexIn(order, id))
    case OneUp(id) => if |order| == 1 then Up else PointerUp(IndexIn(order, id))
  }

  ghost predicate CanDispatch(request: Request, data: CookedPointerData, ids: set<nat>) {
    && data.Sized() && Below(ids, MAX_POINTER_ID + 1)
    && (request.OneDown? || request.OneUp? ==> request.id in ids)
  }

  ghost function SamplesFor(data: CookedPointerData, order: seq<nat>): seq<Sample>
    requires data.Sized() && forall k :: 0 <= k < |order| ==> order[k] <= MAX_POINTER_ID
  {
    seq(|order|, k requires 0 <= k < |order| => data.SampleFor(order[k]))
  }

  /** The event `dispatchMotion` sends. */
  ghost function MotionFor(request: Request, data: CookedPointerData, ids: set<nat>, buttonState: set<nat>): Event
    requires CanDispatch(request, data, ids)
  {
    var order := Ascending(ids);
    assert forall k :: 0 <= k < |order| ==> order[k] in ids;
    Motion(ActionFor(request, order), order, SamplesFor(data, order), buttonState)
  }

  // ----- the events of one frame -----

  ghost function UpEvents(data: CookedPointerData, up: set<nat>, dispatched: set<nat>, buttonState: set<nat>): seq<Event>
    requires data.Sized() && up <= dispatched && Below(dispatched, MAX_POINTER_ID + 1)
  {
    if up == {} then []
    else
      var id := FirstMarked(up);
      [MotionFor(OneUp(id), data, dispatched, buttonState)] + UpEvents(data, up - {id}, dispatched - {id}, buttonState)
  }

  ghost function DownEvents(data: CookedPointerData, down: set<nat>, dispatched: set<nat>, buttonState: set<nat>): seq<Event>
    requires data.Sized() && Below(down + dispatched, MAX_POINTER_ID + 1)
  {
    if down == {} then []
    else
      var id := FirstMarked(down);
      [MotionFor(OneDown(id), data, dispatched + {id}, buttonState)] + DownEvents(data, down - {id}, dispatched + {id}, buttonState)
  }

  /** `updateMovedPointers`: copies the new samples of `ids` over the old ones. */
  ghost function WithMoved(last: CookedPointerData, current: CookedPointerData, ids: set<nat>): CookedPointerData
    requires last.Valid() && current.Valid() && ids <= last.Ids() && ids <= current.Ids()
  {
    last.(samples := seq(MAX_POINTERS, i requires 0 <= i < MAX_POINTERS =>
      if last.samples[i].id in ids && i < last.pointerCount then current.SampleFor(last.samples[i].id) else last.samples[i]))
  }

  predicate AnyMoved(last: CookedPointerData, current: CookedPointerData, ids: set<nat>)
    requires last.Sized() && current.Sized() && Below(ids, MAX_POINTER_ID + 1)
  {
    exists id | id in ids :: last.SampleFor(id) != current.SampleFor(id)
  }

  /** `dispatchTouches`. */
  ghost function TouchEvents(last: CookedState, current: CookedState): seq<Event>
    requires last.data.Valid() && current.data.Valid()
  {
    var lastIds, currentIds := last.data.touchingIdBits, current.data.touchingIdBits;
    var buttons := current.buttonState;
    if currentIds == lastIds then
      if currentIds == {} then [] else [MotionFor(Plain(Move), current.data, currentIds, buttons)]
    else
      var moveIds := lastIds * currentIds;
      UpEvents(WithMoved(last.data, current.data, moveIds), lastIds - currentIds, lastIds, buttons)
      + (if MoveNeeded(last, current) && moveIds != {} then [MotionFor(Plain(Move), current.data, moveIds, buttons)] else [])
      + DownEvents(current.data, currentIds - lastIds, moveIds, buttons)
  }

  /** The last sample as `dispatchTouches` leaves it. */
  ghost function AfterTouches(last: CookedState, current: CookedState): CookedPointerData
    requires last.data.Valid() && current.data.Valid()
  {
    if last.data.touchingIdBits == current.data.touchingIdBits then last.data
    else WithMoved(last.data, current.data, last.data.touchingIdBits * current.data.touchingIdBits)
  }

  ghost predicate MoveNeeded(last: CookedState, current: CookedState)
    requires last.data.Valid() && current.data.Valid()
  {
    AnyMoved(last.data, current.data, last.data.touchingIdBits * current.data.touchingIdBits)
    || current.buttonState != last.buttonState
  }

  /** `dispatchHoverExit`. */
  predicate HoverEnds(current: CookedPointerData) {
    current.hoveringIdBits == {} || current.touchingIdBits != {}
  }

  ghost function HoverExitEvents(last: CookedState, current: CookedState, sentHoverEnter: bool): seq<Event>
    requires last.data.Valid()
  {
    if sentHoverEnter && HoverEnds(current.data)
    then [MotionFor(Plain(HoverExit), last.data, last.data.hoveringIdBits, last.buttonState)] else []
  }

  /** `dispatchHoverEnterAndMove`; `hovering` is the flag as `dispatchHoverExit` left it. */
  ghost function HoverEvents(current: CookedState, rawButtons: set<nat>, hovering: bool): seq<Event>
    requires current.data.Valid()
  {
    if HoverEnds(current.data) then []
    else
      (if hovering then [] else [MotionFor(Plain(HoverEnter), current.data, current.data.hoveringIdBits, rawButtons)])
      + [MotionFor(Plain(HoverMove), current.data, current.data.hoveringIdBits, rawButtons)]
  }

  ghost function ReleaseEvents(data: CookedPointerData, ids: set<nat>, released: set<nat>, buttonState: set<nat>): seq<Event>
    requires data.Sized() && Below(ids, MAX_POINTER_ID + 1)
  {
    if released == {} then []
    else
      var b := FirstMarked(released);
      [MotionFor(Plain(ButtonRelease(b)), data, ids, buttonState - {b})]
      + ReleaseEvents(data, ids, released - {b}, buttonState - {b})
  }

  ghost function PressEvents(data: CookedPointerData, ids: set<nat>, pressed: set<nat>, buttonState: set<nat>): seq<Event>
    requires data.Sized() && Below(ids, MAX_POINTER_ID + 1)
  {
    if pressed == {} then []
    else
      var b := FirstMarked(pressed);
      [MotionFor(Plain(ButtonPress(b)), data, ids, buttonState + {b})]
      + PressEvents(data, ids, pressed - {b}, buttonState + {b})
  }

  /** `dispatchButtonRelease` sends the ids of the last sample with the table of the current one. */
  ghost function ButtonReleaseEvents(last: CookedState, current: CookedState): seq<Event>
    requires last.data.Valid() && current.data.Valid()
  {
    ReleaseEvents(current.data, last.data.ActiveIdBits(), last.buttonState - current.buttonState, last.buttonState)
  }

  /** `dispatchButtonPress` starts from the button state of the last sample. */
  ghost function ButtonPressEvents(last: CookedState, current: CookedState): seq<Event>
    requires last.data.Valid() && current.data.Valid()
  {
    PressEvents(current.data, current.data.ActiveIdBits(), current.buttonState - last.buttonState, last.buttonState)
  }

  /** The five dispatchers in the order of `cookAndDispatch`. */
  ghost function FrameEvents(last: CookedState, current: CookedState, rawButtons: set<nat>, sentHoverEnter: bool): seq<Event>
    requires last.data.Valid() && current.data.Valid()
  {
    ButtonReleaseEvents(last, current)
    + HoverExitEvents(last, current, sentHoverEnter)
    + TouchEvents(last, current)
    + HoverEvents(current, rawButtons, sentHoverEnter && !HoverEnds(current.data))
    + ButtonPressEvents(last, current)
  }

  // ----- the listener -----

  /** What a listener knows from the events so far. */
  datatype Listener = Listener(touching: set<nat>, hovering: bool)

  /** The event makes sense to the listener. */
  ghost predicate Legal(l: Listener, e: Event) {
    match e
    case DeviceReset => true
    case Motion(action, ids, _, _) =>
      && ids != [] && Increasing(ids)
      && match action
         case Down => |ids| == 1 && l.touching == {} && !l.hovering
         case PointerDown(i) =>
           && i < |ids| && l.touching != {} && !l.hovering
           && ids[i] !in l.touching && Elements(ids) == l.touching + {ids[i]}
         case Up => |ids| == 1 && l.touching == {ids[0]}
         case PointerUp(i) => i < |ids| && |ids| > 1 && Elements(ids) == l.touching
         case Move => Elements(ids) == l.touching
         case Cancel => true
         case HoverEnter => l.touching == {} && !l.hovering
         case HoverMove => l.touching == {} && l.hovering
         case HoverExit => l.touching == {} && l.hovering
         case ButtonPress(_) => Points(l, ids)
         case ButtonRelease(_) => Points(l, ids)
  }

  /** A button event names the pointers that are down, or comes while hovering. */
  ghost predicate Points(l: Listener, ids: seq<nat>) {
    if l.touching != {} then Elements(ids) == l.touching else l.hovering
  }

  ghost function Hear(l: Listener, e: Event): Listener {
    match e
    case DeviceReset => Listener({}, false)
    case Motion(action, ids, _, _) =>
      match action
      case Down => l.(touching := Elements(ids))
      case PointerDown(_) => l.(touching := Elements(ids))
      case Up => l.(touching := l.touching - Elements(ids))
      case PointerUp(i) => if i < |ids| then l.(touching := l.touching - {ids[i]}) else l
      case Cancel => l.(touching := {})
      case HoverEnter => l.(hovering := true)
      case HoverExit => l.(hovering := false)
      case _ => l
  }

  ghost function Replay(l: Listener, events: seq<Event>): Listener
    decreases |events|
  {
    if events == [] then l else Replay(Hear(l, events[0]), events[1..])
  }

  /** Each event makes sense when it comes. */
  ghost predicate AllLegal(l: Listener, events: seq<Event>)
    decreases |events|
  {
    events == [] || (Legal(l, events[0]) && AllLegal(Hear(l, events[0]), events[1..]))
  }

  /** The events make sense one after the other and take the listener from `l` to `l'`. */
  ghost predicate Leads(l: Listener, events: seq<Event>, l': Listener) {
    AllLegal(l, events) && Replay(l, events) == l'
  }

  lemma {:induction false} LeadsConcat(l: Listener, first: seq<Event>, m: Listener, second: seq<Event>, r: Listener)
    requires Leads(l, first, m) && Leads(m, second, r)
    ensures Leads(l, first + second, r)
    decreases |first|
  {
    if first == [] {
      assert first + second == second;
    } else {
      LeadsConcat(Hear(l, first[0]), first[1..], m, second, r);
      assert (first + second)[1..] == first[1..] + second;
    }
  }
}
