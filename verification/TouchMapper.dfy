/** `TouchInputMapper` in direct mode: from synchronised slots to motion events. */
module TouchMapper {
  import opened BitSets
  import opened Options
  import opened RawPointers
  import opened TouchStream
  import opened TouchSafety
  import opened TouchRuns
  import opened TouchContents
  import PointerIds
  import TrackingIds

  // ----- raw samples -----

  /** `RawState`. */
  datatype RawState = RawState(when: int, data: RawPointerData, buttonState: set<nat>)

  /** `RawPointerData::copyFrom` copies the other sample's pointers and their table entries only. */
  function CopyRaw(old_: RawPointerData, other: RawPointerData): RawPointerData
    requires old_.Sized() && other.Sized()
  {
    RawPointerData(
      other.pointerCount,
      seq(MAX_POINTERS, i requires 0 <= i < MAX_POINTERS => if i < other.pointerCount then other.pointers[i] else old_.pointers[i]),
      other.hoveringIdBits, other.touchingIdBits,
      seq(MAX_POINTER_ID + 1, id requires 0 <= id <= MAX_POINTER_ID =>
        if exists i :: 0 <= i < other.pointerCount && other.pointers[i].id == id then other.idToIndex[id] else old_.idToIndex[id]))
  }

  lemma CopyRawHasIds(old_: RawPointerData, other: RawPointerData)
    requires old_.Sized() && other.HasIds()
    ensures CopyRaw(old_, other).HasIds()
    ensures CopyRaw(old_, other).pointerCount == other.pointerCount
  {
    hide RawPointerData.IdsAre, CopyRaw;
    CompleteIsSized(other);
    var owned := map i: nat | 0 <= i < other.pointerCount && i < |other.pointers| :: other.pointers[i].id;
    CopyOfOwned(old_, other, owned);
  }

  lemma CopyOfOwned(old_: RawPointerData, other: RawPointerData, owned: map<nat, nat>)
    requires old_.Sized() && other.IdsAre(owned) && owned.Keys == Range(other.pointerCount)
    ensures CopyRaw(old_, other).IdsAre(owned)
    ensures var copy := CopyRaw(old_, other);
            copy.pointerCount == other.pointerCount
            && owned == map i: nat | 0 <= i < copy.pointerCount && i < |copy.pointers| :: copy.pointers[i].id
  {
    hide RawPointerData.IdsAre, Range;
    OwnedPointers(other, owned);
    var copy := CopyRaw(old_, other);
    forall i | i in owned
      ensures i < other.pointerCount && copy.pointers[i] == other.pointers[i] && copy.idToIndex[owned[i]] == i
    {
      assert i in owned.Keys && other.pointers[i].id == owned[i];
    }
    SameOwned(other, copy, owned);
  }

  lemma OwnedPointers(d: RawPointerData, owned: map<nat, nat>)
    requires d.IdsAre(owned)
    ensures d.Sized() && forall i :: i in owned ==>
              i < MAX_POINTERS && owned[i] <= MAX_POINTER_ID && d.pointers[i].id == owned[i] && d.idToIndex[owned[i]] == i
  {
  }

  /** The ids depend on the owned pointers, their table entries and the bit sets only. */
  lemma SameOwned(d: RawPointerData, d': RawPointerData, owned: map<nat, nat>)
    requires d.IdsAre(owned) && d'.Sized() && d'.touchingIdBits == d.touchingIdBits && d'.hoveringIdBits == d.hoveringIdBits
    requires forall i :: i in owned ==> i < MAX_POINTERS && owned[i] <= MAX_POINTER_ID
                                        && d'.pointers[i] == d.pointers[i] && d'.idToIndex[owned[i]] == i
    ensures d'.IdsAre(owned)
  {
  }

  lemma ClearHasIds(d: RawPointerData)
    requires d.Sized()
    ensures d.Clear().HasIds()
  {
    NoIdsYet(d);
    assert d.Clear().IdsAre(map[]);
    AllHaveIds(d.Clear(), map[]);
  }

  // ----- virtual keys -----

  datatype KeyEvent = KeyDown(keyCode: int) | KeyUp(keyCode: int, canceled: bool) | KeyReset

  /** The key a listener believes to be down. */
  ghost function KeyHeld(events: seq<KeyEvent>): Option<int> {
    if events == [] then None
    else match events[|events| - 1]
      case KeyDown(code) => Some(code)
      case KeyUp(_, _) => None
      case KeyReset => None
  }

  /** A key goes down only when none is, and only the key that is down goes up. */
  ghost predicate KeysAlternate(events: seq<KeyEvent>) {
    forall i :: 0 <= i < |events| ==> KeyFits(events[..i], events[i])
  }

  ghost predicate KeyFits(before: seq<KeyEvent>, e: KeyEvent) {
    match e
    case KeyDown(_) => KeyHeld(before) == None
    case KeyUp(code, _) => KeyHeld(before) == Some(code)
    case KeyReset => true
  }

  lemma OneMoreKey(events: seq<KeyEvent>, e: KeyEvent)
    requires KeysAlternate(events) && KeyFits(events, e)
    ensures KeysAlternate(events + [e])
    ensures KeyHeld(events + [e]) == if e.KeyDown? then Some(e.keyCode) else None
  {
    var all := events + [e];
    forall i | 0 <= i < |all|
      ensures KeyFits(all[..i], all[i])
    {
      assert all[..i] == if i < |events| then events[..i] else events;
    }
  }

  // ----- the raw-state queue -----

  /** What of a raw sample a later stage can see. */
  datatype Visible = Visible(pointers: seq<Pointer>, hoveringIdBits: set<nat>, touchingIdBits: set<nat>, buttonState: set<nat>)

  ghost function VisibleOf(s: RawState): Visible
    requires s.data.HasIds()
  {
    IdsAreABijection(s.data);
    Visible(s.data.pointers[..s.data.pointerCount], s.data.hoveringIdBits, s.data.touchingIdBits, s.buttonState)
  }

  ghost function VisibleAll(states: seq<RawState>): seq<Visible>
    requires forall i :: 0 <= i < |states| ==> states[i].data.HasIds()
  {
    seq(|states|, i requires 0 <= i < |states| => VisibleOf(states[i]))
  }

  /** What became of a sample: it was cooked and dispatched, or was so once more, or was dropped by a reset or
      a disabled device. */
  datatype Fate = Used(sample: Visible) | UsedAgain(sample: Visible) | Dropped(sample: Visible)

  /** The samples that have met their fate, each once. */
  ghost function Settled(fates: seq<Fate>): seq<Visible> {
    if fates == [] then []
    else
      var last := fates[|fates| - 1];
      Settled(fates[..|fates| - 1]) + if last.UsedAgain? then [] else [last.sample]
  }

  lemma OneMoreFate(fates: seq<Fate>, fate: Fate)
    ensures Settled(fates + [fate]) == Settled(fates) + if fate.UsedAgain? then [] else [fate.sample]
  {
    assert (fates + [fate])[..|fates|] == fates;
  }

  ghost function AllUsed(states: seq<RawState>): (r: seq<Fate>)
    requires forall i :: 0 <= i < |states| ==> states[i].data.HasIds()
    ensures |r| == |states|
  {
    seq(|states|, i requires 0 <= i < |states| => Used(VisibleOf(states[i])))
  }

  ghost function AllDropped(states: seq<RawState>): (r: seq<Fate>)
    requires forall i :: 0 <= i < |states| ==> states[i].data.HasIds()
    ensures |r| == |states|
  {
    seq(|states|, i requires 0 <= i < |states| => Dropped(VisibleOf(states[i])))
  }

  /** As many more samples have met their fate. */
  lemma {:induction false} MoreFates(fates: seq<Fate>, more: seq<Fate>, samples: seq<Visible>)
    requires |more| == |samples| && forall i :: 0 <= i < |more| ==> !more[i].UsedAgain? && more[i].sample == samples[i]
    ensures Settled(fates + more) == Settled(fates) + samples
    decreases |more|
  {
    if more == [] {
      assert fates + more == fates && Settled(fates) + samples == Settled(fates);
    } else {
      var n := |more| - 1;
      MoreFates(fates, more[..n], samples[..n]);
      assert (fates + more)[..|fates| + n] == fates + more[..n];
      assert Settled(fates) + samples == Settled(fates) + samples[..n] + [samples[n]];
    }
  }

  lemma CopyLooksTheSame(old_: RawPointerData, other: RawState)
    requires old_.Sized() && other.data.HasIds()
    ensures CopyRaw(old_, other.data).HasIds()
    ensures forall when :: VisibleOf(RawState(when, CopyRaw(old_, other.data), other.buttonState)) == VisibleOf(other)
  {
    CopyRawHasIds(old_, other.data);
    assert CopyRaw(old_, other.data).pointers[..other.data.pointerCount] == other.data.pointers[..other.data.pointerCount];
  }

  function NoPointers(): RawPointerData {
    RawPointerData(0, seq(MAX_POINTERS, i => Pointer(0, 0, 0, Unknown, false, 0)), {}, {}, seq(MAX_POINTER_ID + 1, i => 0))
  }

  function NoRaw(): RawState {
    RawState(0, NoPointers(), {})
  }

  function NoCooked(): CookedState {
    CookedState(CookedPointerData(0, seq(MAX_POINTERS, i => Sample(0, Unknown, 0, 0, 0)), {}, {}, seq(MAX_POINTER_ID + 1, i => 0)), {})
  }

  lemma NoRawHasIds()
    ensures NoRaw().data.HasIds() && NoCooked().data.Valid()
  {
    assert NoPointers().Sized();
    ClearHasIds(NoPointers());
    assert NoPointers().Clear() == NoPointers();
  }

  /** `StylusState`: what an external stylus reported last. */
  datatype StylusState = StylusState(when: int, pressed: bool, buttons: set<nat>)

  const LLONG_MAX: int := 0x7fff_ffff_ffff_ffff
  const EXTERNAL_STYLUS_DATA_TIMEOUT: int := 72_000_000
  const TOUCH_DATA_TIMEOUT: int := 20_000_000
  const STYLUS_DATA_LATENCY: int := 10_000_000

  /** `CurrentVirtualKeyState`. */
  datatype VirtualKey = VirtualKey(down: bool, ignored: bool, keyCode: int)

  // ----- the mapper -----

  lemma GatheredIsMotion(request: Request, data: CookedPointerData, idBits: set<nat>, buttonState: set<nat>,
                         ids: seq<nat>, samples: seq<Sample>, changedIndex: nat)
    requires CanDispatch(request, data, idBits)
    requires Lists(idBits, ids) && |samples| == |ids|
    requires forall k :: 0 <= k < |ids| ==> ids[k] <= MAX_POINTER_ID && samples[k] == data.SampleFor(ids[k])
    requires request.OneDown? || request.OneUp? ==> changedIndex < |ids| && ids[changedIndex] == request.id
    ensures MotionFor(request, data, idBits, buttonState) == Motion(
              match request
              case Plain(action) => action
              case OneDown(_) => if |ids| == 1 then Down else PointerDown(changedIndex)
              case OneUp(_) => if |ids| == 1 then Up else PointerUp(changedIndex),
              ids, samples, buttonState)
  {
    ListsOnce(idBits, ids, Ascending(idBits));
    assert samples == SamplesFor(data, ids);
    if request.OneDown? || request.OneUp? {
      var k := IndexIn(ids, request.id);
      assert ids[k] == ids[changedIndex];
      assert k == changedIndex;
    }
  }

  class TouchInputMapper {
    /** The motion and key events sent to the listener so far. */
    var outbox: seq<Event>
    var keyOutbox: seq<KeyEvent>

    var currentRaw: RawState
    var currentCooked: CookedState
    var lastRaw: RawState
    var lastCooked: CookedState
    var sentHoverEnter: bool
    var motionAborted: bool
    var virtualKey: VirtualKey

    /** Geometry and policy, which the model does not look into. */
    const insideSurface: (int, int) -> bool
    const virtualKeyAt: (int, int) -> Option<int>
    const dropsVirtualKey: (int, int) -> bool
    const virtualKeyQuietTime: int

    /** Until when the mapper last asked for virtual keys to be dropped. */
    var keysDisabledUntil: Option<int>

    const disabled: bool
    const externalStylusConnected: bool
    var stylus: StylusState
    var externalStylusId: Option<nat>
    /** `None` stands for `LLONG_MAX`: no timeout is set. */
    var fusionTimeout: Option<int>
    var stylusDataPending: bool

    /** Synchronised samples that have not been cooked yet. */
    var rawStatesPending: seq<RawState>

    /** When the mapper last asked to be called because of a timeout. */
    var requestedTimeout: Option<int>

    /** The samples that were queued so far, and what became of those that are no longer pending. */
    ghost var queued: seq<Visible>
    ghost var fates: seq<Fate>

    const touch: TrackingIds.MultiTouchInputMapper

    ghost function StreamState(): Stream
      reads this`lastCooked, this`currentCooked, this`sentHoverEnter, this`motionAborted
    {
      Stream(lastCooked, currentCooked, sentHoverEnter, motionAborted)
    }

    /** The key events match the state of the current virtual key. */
    ghost predicate KeysValid()
      reads this`keyOutbox, this`virtualKey
    {
      && KeysAlternate(keyOutbox)
      && KeyHeld(keyOutbox) == if virtualKey.down && !virtualKey.ignored then Some(virtualKey.keyCode) else None
    }

    ghost predicate QueueValid()
      reads this`rawStatesPending
    {
      forall i :: 0 <= i < |rawStatesPending| ==> rawStatesPending[i].data.HasIds()
    }

    /** Every sample that was queued has met its fate or is still pending, and their order is kept. */
    ghost predicate NothingLost()
      reads this`rawStatesPending, this`queued, this`fates
    {
      QueueValid() && queued == Settled(fates) + VisibleAll(rawStatesPending)
    }

    /** A timeout is set only while something waits for it, and the mapper has asked to be called then. */
    ghost predicate TimeoutFits()
      reads this`fusionTimeout, this`requestedTimeout, this`rawStatesPending, this`stylusDataPending
    {
      fusionTimeout.Some? ==> requestedTimeout == fusionTimeout && (rawStatesPending != [] || stylusDataPending)
    }

    ghost predicate Waits()
      reads this`fusionTimeout, this`rawStatesPending, this`stylusDataPending
    {
      rawStatesPending != [] || stylusDataPending ==> fusionTimeout.Some?
    }

    /** Who has heard all events remembers the last raw sample: its touching pointers with their samples, or else
        its hovering ones, and the buttons.  Only of touches that were cancelled nothing is remembered. */
    ghost predicate Remembers()
      requires Inv(StreamState()) && lastRaw.data.HasIds()
      reads this`lastCooked, this`currentCooked, this`sentHoverEnter, this`motionAborted, this`outbox, this`lastRaw
    {
      Recalls(StreamState(), lastRaw.data, lastRaw.buttonState, outbox)
    }

    /** A listener that replays the outbox finds every event legal and knows the last cooked touching set
        and the hover state; the key events alternate. */
    ghost predicate InStep()
      reads this`lastCooked, this`currentCooked, this`sentHoverEnter, this`motionAborted, this`outbox, this`lastRaw, this`currentRaw,
            this`keyOutbox, this`virtualKey
    {
      && Inv(StreamState())
      && Leads(Listener({}, false), outbox, Known(StreamState()))
      && lastRaw.data.HasIds() && currentRaw.data.HasIds()
      && KeysValid() && Remembers()
    }

    /** What every operation keeps. */
    ghost predicate Valid()
      reads this`lastCooked, this`currentCooked, this`sentHoverEnter, this`motionAborted, this`outbox, this`lastRaw, this`currentRaw,
            this`keyOutbox, this`virtualKey, this`rawStatesPending, this`queued, this`fates, this`fusionTimeout, this`requestedTimeout,
            this`stylusDataPending
    {
      InStep() && NothingLost() && (disabled || (TimeoutFits() && Waits()))
    }

    constructor (touch: TrackingIds.MultiTouchInputMapper, disabled: bool, externalStylusConnected: bool,
                 insideSurface: (int, int) -> bool, virtualKeyAt: (int, int) -> Option<int>,
                 dropsVirtualKey: (int, int) -> bool, virtualKeyQuietTime: int)
      ensures Valid() && outbox == [] && rawStatesPending == [] && queued == [] && fates == []
      ensures this.touch == touch && this.disabled == disabled && this.externalStylusConnected == externalStylusConnected
    {
      this.touch, this.disabled, this.externalStylusConnected := touch, disabled, externalStylusConnected;
      this.insideSurface, this.virtualKeyAt, this.dropsVirtualKey := insideSurface, virtualKeyAt, dropsVirtualKey;
      this.virtualKeyQuietTime, keysDisabledUntil := virtualKeyQuietTime, None;
      outbox, keyOutbox, rawStatesPending, queued, fates := [], [], [], [], [];
      currentRaw, lastRaw := NoRaw(), NoRaw();
      currentCooked, lastCooked := NoCooked(), NoCooked();
      sentHoverEnter, motionAborted := false, false;
      virtualKey := VirtualKey(false, false, 0);
      stylus := StylusState(LLONG_MAX, false, {});
      externalStylusId, fusionTimeout, requestedTimeout, stylusDataPending := None, None, None, false;
      new;
      NoRawHasIds();
      RecallsNothing(StreamState(), lastRaw.data);
    }

    // ----- dispatchMotion -----

    /** The loop of `dispatchMotion`: ids in ascending order, their samples, and the index at which the
        changed id came by. */
    method GatherPointers(data: CookedPointerData, idBits: set<nat>, changedId: Option<nat>)
      returns (ids: seq<nat>, samples: seq<Sample>, changedIndex: nat)
      requires data.Sized() && Below(idBits, MAX_POINTER_ID + 1)
      requires changedId.Some? ==> changedId.value in idBits
      ensures Lists(idBits, ids) && |samples| == |ids|
      ensures forall k :: 0 <= k < |ids| ==> ids[k] <= MAX_POINTER_ID && samples[k] == data.SampleFor(ids[k])
      ensures changedId.Some? ==> changedIndex < |ids| && ids[changedIndex] == changedId.value
    {
      hide CookedPointerData.Sized, CookedPointerData.SampleFor;
      ids, samples, changedIndex := [], [], 0;
      var rest := idBits;
      while rest != {}
        invariant rest <= idBits && Increasing(ids)
        invariant forall x :: x in idBits <==> x in rest || x in ids
        invariant forall k, x :: 0 <= k < |ids| && x in rest ==> ids[k] < x
        invariant |samples| == |ids|
        invariant forall k :: 0 <= k < |ids| ==> ids[k] <= MAX_POINTER_ID && samples[k] == data.SampleFor(ids[k])
        invariant changedId.Some? && changedId.value !in rest ==> changedIndex < |ids| && ids[changedIndex] == changedId.value
        decreases |rest|
      {
        var id := FirstMarked(rest);
        rest := rest - {id};
        LooksUp(data, id);
        samples := samples + [data.samples[data.idToIndex[id]]];
        if changedId == Some(id) {
          changedIndex := |ids|;
        }
        ids := ids + [id];
      }
    }

    /** Sends one event: the pointers of `idBits` in ascending order of id, each looked up in the given
        tables, with the index of the changed pointer worked into the action. */
    method DispatchMotion(request: Request, data: CookedPointerData, idBits: set<nat>, buttonState: set<nat>)
      requires CanDispatch(request, data, idBits) && idBits != {}
      modifies this`outbox
      ensures outbox == old(outbox) + [MotionFor(request, data, idBits, buttonState)]
    {
      var changedId := match request case Plain(_) => None case OneDown(id) => Some(id) case OneUp(id) => Some(id);
      var ids, samples, changedIndex := GatherPointers(data, idBits, changedId);
      var action := match request
        case Plain(action) => action
        case OneDown(_) => if |ids| == 1 then Down else PointerDown(changedIndex)
        case OneUp(_) => if |ids| == 1 then Up else PointerUp(changedIndex);
      GatheredIsMotion(request, data, idBits, buttonState, ids, samples, changedIndex);
      outbox := outbox + [Motion(action, ids, samples, buttonState)];
    }

    // ----- the dispatchers -----

    method DispatchButtonRelease()
      requires lastCooked.data.Valid() && currentCooked.data.Valid() && ButtonsHavePointer(lastCooked)
      modifies this`outbox
      ensures outbox == old(outbox) + ButtonReleaseEvents(lastCooked, currentCooked)
    {
      hide MotionFor, CookedPointerData.Valid;
      ActiveAreBelow(lastCooked.data, currentCooked.data);
      var releasedButtons := lastCooked.buttonState - currentCooked.buttonState;
      var idBits := lastCooked.data.ActiveIdBits();
      var buttonState := lastCooked.buttonState;
      while releasedButtons != {}
        invariant releasedButtons <= lastCooked.buttonState
        invariant outbox + ReleaseEvents(currentCooked.data, idBits, releasedButtons, buttonState)
               == old(outbox) + ButtonReleaseEvents(lastCooked, currentCooked)
        decreases |releasedButtons|
      {
        var actionButton := FirstMarked(releasedButtons);
        releasedButtons := releasedButtons - {actionButton};
        buttonState := buttonState - {actionButton};
        AppendOne(outbox, MotionFor(Plain(ButtonRelease(actionButton)), currentCooked.data, idBits, buttonState),
                  ReleaseEvents(currentCooked.data, idBits, releasedButtons, buttonState));
        DispatchMotion(Plain(ButtonRelease(actionButton)), currentCooked.data, idBits, buttonState);
      }
    }

    method DispatchButtonPress()
      requires lastCooked.data.Valid() && currentCooked.data.Valid() && ButtonsHavePointer(currentCooked)
      modifies this`outbox
      ensures outbox == old(outbox) + ButtonPressEvents(lastCooked, currentCooked)
    {
      hide MotionFor, CookedPointerData.Valid;
      ActiveAreBelow(currentCooked.data, currentCooked.data);
      var pressedButtons := currentCooked.buttonState - lastCooked.buttonState;
      var idBits := currentCooked.data.ActiveIdBits();
      var buttonState := lastCooked.buttonState;
      while pressedButtons != {}
        invariant pressedButtons <= currentCooked.buttonState
        invariant outbox + PressEvents(currentCooked.data, idBits, pressedButtons, buttonState)
               == old(outbox) + ButtonPressEvents(lastCooked, currentCooked)
        decreases |pressedButtons|
      {
        var actionButton := FirstMarked(pressedButtons);
        pressedButtons := pressedButtons - {actionButton};
        buttonState := buttonState + {actionButton};
        AppendOne(outbox, MotionFor(Plain(ButtonPress(actionButton)), currentCooked.data, idBits, buttonState),
                  PressEvents(currentCooked.data, idBits, pressedButtons, buttonState));
        DispatchMotion(Plain(ButtonPress(actionButton)), currentCooked.data, idBits, buttonState);
      }
    }

    method DispatchHoverExit()
      requires lastCooked.data.Valid() && (sentHoverEnter ==> lastCooked.data.hoveringIdBits != {})
      modifies this`outbox, this`sentHoverEnter
      ensures outbox == old(outbox) + HoverExitEvents(lastCooked, currentCooked, old(sentHoverEnter))
      ensures sentHoverEnter == (old(sentHoverEnter) && !HoverEnds(currentCooked.data))
    {
      if sentHoverEnter && (currentCooked.data.hoveringIdBits == {} || currentCooked.data.touchingIdBits != {}) {
        DispatchMotion(Plain(HoverExit), lastCooked.data, lastCooked.data.hoveringIdBits, lastCooked.buttonState);
        sentHoverEnter := false;
      }
    }

    method DispatchHoverEnterAndMove()
      requires currentCooked.data.Valid()
      modifies this`outbox, this`sentHoverEnter
      ensures outbox == old(outbox) + HoverEvents(currentCooked, currentRaw.buttonState, old(sentHoverEnter))
      ensures sentHoverEnter == (old(sentHoverEnter) || !HoverEnds(currentCooked.data))
    {
      if currentCooked.data.touchingIdBits == {} && currentCooked.data.hoveringIdBits != {} {
        if !sentHoverEnter {
          DispatchMotion(Plain(HoverEnter), currentCooked.data, currentCooked.data.hoveringIdBits, currentRaw.buttonState);
          sentHoverEnter := true;
        }
        DispatchMotion(Plain(HoverMove), currentCooked.data, currentCooked.data.hoveringIdBits, currentRaw.buttonState);
      }
    }

    /** Copies the samples of `idBits` that changed over the last ones and tells whether any did. */
    method UpdateMovedPointers(idBits: set<nat>) returns (changed: bool)
      requires lastCooked.data.Valid() && currentCooked.data.Valid()
      requires idBits <= lastCooked.data.Ids() && idBits <= currentCooked.data.Ids()
      modifies this`lastCooked
      ensures changed == AnyMoved(old(lastCooked).data, currentCooked.data, idBits)
      ensures lastCooked == old(lastCooked).(data := WithMoved(old(lastCooked).data, currentCooked.data, idBits))
    {
      hide AnyMoved, WithMoved, CookedPointerData.Valid, CookedPointerData.Sized;
      changed := false;
      ghost var last, current := lastCooked.data, currentCooked.data;
      ghost var done: set<nat> := {};
      var samples := lastCooked.data.samples;
      var rest := idBits;
      AllAreBelow(last);
      AllAreBelow(current);
      NothingMoved(last, current);
      while rest != {}
        invariant lastCooked == old(lastCooked)
        invariant rest == idBits - done && done <= idBits
        invariant changed == AnyMoved(last, current, done)
        invariant samples == WithMoved(last, current, done).samples
        decreases |rest|
      {
        var id := FirstMarked(rest);
        rest := rest - {id};
        FindsIn(current, id);
        FindsIn(last, id);
        var inIndex := currentCooked.data.idToIndex[id];
        var outIndex := lastCooked.data.idToIndex[id];
        OneMoved(last, current, done, id, samples);
        if currentCooked.data.samples[inIndex] != samples[outIndex] {
          samples := samples[outIndex := currentCooked.data.samples[inIndex]];
          changed := true;
        }
        done := done + {id};
      }
      assert done == idBits;
      OnlySamplesMove(last, current, idBits);
      lastCooked := lastCooked.(data := lastCooked.data.(samples := samples));
    }

    method DispatchTouches()
      requires lastCooked.data.Valid() && currentCooked.data.Valid()
      modifies this`outbox, this`lastCooked
      ensures outbox == old(outbox) + TouchEvents(old(lastCooked), currentCooked)
      ensures lastCooked == old(lastCooked).(data := AfterTouches(old(lastCooked), currentCooked))
    {
      var currentIdBits, lastIdBits := currentCooked.data.touchingIdBits, lastCooked.data.touchingIdBits;
      if currentIdBits == lastIdBits {
        if currentIdBits != {} {
          DispatchMotion(Plain(Move), currentCooked.data, currentIdBits, currentCooked.buttonState);
        }
      } else {
        DispatchTouchChanges();
      }
    }

    /** The touching ids have changed: the ups come first, then one move, then the downs. */
    method DispatchTouchChanges()
      requires lastCooked.data.Valid() && currentCooked.data.Valid()
      requires lastCooked.data.touchingIdBits != currentCooked.data.touchingIdBits
      modifies this`outbox, this`lastCooked
      ensures outbox == old(outbox) + TouchEvents(old(lastCooked), currentCooked)
      ensures lastCooked == old(lastCooked).(data := AfterTouches(old(lastCooked), currentCooked))
    {
      hide CookedPointerData.Valid, CookedPointerData.Sized, MotionFor, AnyMoved, WithMoved, TouchEvents, AfterTouches;
      var currentIdBits, lastIdBits := currentCooked.data.touchingIdBits, lastCooked.data.touchingIdBits;
      var buttonState := currentCooked.buttonState;
      var moveIdBits := lastIdBits * currentIdBits;
      TouchParts(lastCooked, currentCooked);
      var moveNeeded := UpdateMovedPointers(moveIdBits);
      if buttonState != lastCooked.buttonState {
        moveNeeded := true;
      }
      ghost var sent := outbox;
      ghost var ups := UpEvents(lastCooked.data, lastIdBits - currentIdBits, lastIdBits, buttonState);
      ghost var move := if moveNeeded && moveIdBits != {} then [MotionFor(Plain(Move), currentCooked.data, moveIdBits, buttonState)] else [];
      ghost var downs := DownEvents(currentCooked.data, currentIdBits - lastIdBits, moveIdBits, buttonState);
      DispatchUps(lastIdBits - currentIdBits, lastIdBits, buttonState);
      if moveNeeded && moveIdBits != {} {
        DispatchMotion(Plain(Move), currentCooked.data, moveIdBits, buttonState);
      }
      assert outbox == sent + ups + move;
      DispatchDowns(currentIdBits - lastIdBits, moveIdBits, buttonState);
      assert outbox == sent + ups + move + downs;
      AppendThree(sent, ups, move, downs);
    }

    method DispatchUps(upIdBits: set<nat>, lastIdBits: set<nat>, buttonState: set<nat>)
      requires lastCooked.data.Sized() && upIdBits <= lastIdBits && Below(lastIdBits, MAX_POINTER_ID + 1)
      modifies this`outbox
      ensures outbox == old(outbox) + UpEvents(lastCooked.data, upIdBits, lastIdBits, buttonState)
    {
      hide MotionFor, CookedPointerData.Valid;
      var up, dispatchedIdBits := upIdBits, lastIdBits;
      while up != {}
        invariant up <= dispatchedIdBits <= lastIdBits
        invariant outbox + UpEvents(lastCooked.data, up, dispatchedIdBits, buttonState)
               == old(outbox) + UpEvents(lastCooked.data, upIdBits, lastIdBits, buttonState)
        decreases |up|
      {
        var upId := FirstMarked(up);
        AppendOne(outbox, MotionFor(OneUp(upId), lastCooked.data, dispatchedIdBits, buttonState),
                  UpEvents(lastCooked.data, up - {upId}, dispatchedIdBits - {upId}, buttonState));
        up := up - {upId};
        DispatchMotion(OneUp(upId), lastCooked.data, dispatchedIdBits, buttonState);
        dispatchedIdBits := dispatchedIdBits - {upId};
      }
    }

    method DispatchDowns(downIdBits: set<nat>, startIdBits: set<nat>, buttonState: set<nat>)
      requires currentCooked.data.Sized() && Below(downIdBits + startIdBits, MAX_POINTER_ID + 1)
      modifies this`outbox
      ensures outbox == old(outbox) + DownEvents(currentCooked.data, downIdBits, startIdBits, buttonState)
    {
      hide MotionFor, CookedPointerData.Valid;
      var down, dispatchedIdBits := downIdBits, startIdBits;
      while down != {}
        invariant down + dispatchedIdBits == downIdBits + startIdBits
        invariant outbox + DownEvents(currentCooked.data, down, dispatchedIdBits, buttonState)
               == old(outbox) + DownEvents(currentCooked.data, downIdBits, startIdBits, buttonState)
        decreases |down|
      {
        var downId := FirstMarked(down);
        AppendOne(outbox, MotionFor(OneDown(downId), currentCooked.data, dispatchedIdBits + {downId}, buttonState),
                  DownEvents(currentCooked.data, down - {downId}, dispatchedIdBits + {downId}, buttonState));
        down := down - {downId};
        dispatchedIdBits := dispatchedIdBits + {downId};
        DispatchMotion(OneDown(downId), currentCooked.data, dispatchedIdBits, buttonState);
      }
    }

    // ----- one frame -----

    /** The loop of `cookPointerData` without its geometry. */
    static method FillTables(scratch: CookedPointerData, raw: RawPointerData) returns (samples: seq<Sample>, idToIndex: seq<nat>)
      requires scratch.Sized() && raw.Sized()
      requires forall i :: 0 <= i < raw.pointerCount ==> raw.pointers[i].id <= MAX_POINTER_ID
      requires forall i, j :: 0 <= i < j < raw.pointerCount ==> raw.pointers[i].id != raw.pointers[j].id
      ensures |samples| == MAX_POINTERS && |idToIndex| == MAX_POINTER_ID + 1
      ensures forall k :: 0 <= k < MAX_POINTERS ==>
                samples[k] == if k < raw.pointerCount then SampleOf(raw.pointers[k]) else scratch.samples[k]
      ensures forall k :: 0 <= k < raw.pointerCount ==> idToIndex[raw.pointers[k].id] == k
      ensures forall id :: 0 <= id <= MAX_POINTER_ID && (forall k :: 0 <= k < raw.pointerCount ==> raw.pointers[k].id != id) ==>
                idToIndex[id] == scratch.idToIndex[id]
    {
      samples, idToIndex := scratch.samples, scratch.idToIndex;
      for i := 0 to raw.pointerCount
        invariant |samples| == MAX_POINTERS && |idToIndex| == MAX_POINTER_ID + 1
        invariant forall k :: 0 <= k < MAX_POINTERS ==>
                    samples[k] == if k < i then SampleOf(raw.pointers[k]) else scratch.samples[k]
        invariant forall k :: 0 <= k < i ==> idToIndex[raw.pointers[k].id] == k
        invariant forall id :: 0 <= id <= MAX_POINTER_ID && (forall k :: 0 <= k < raw.pointerCount ==> raw.pointers[k].id != id) ==>
                    idToIndex[id] == scratch.idToIndex[id]
      {
        samples := samples[i := SampleOf(raw.pointers[i])];
        idToIndex := idToIndex[raw.pointers[i].id := i];
      }
    }

    /** `cookPointerData`. */
    method CookPointerData()
      requires currentCooked.data.Sized() && currentRaw.data.HasIds()
      modifies this`currentCooked
      ensures currentCooked == CookedState(Cooked(old(currentCooked).data, currentRaw.data),
                                           CookedButtons(currentRaw.data, currentRaw.buttonState))
    {
      var raw := currentRaw.data;
      IdsAreABijection(raw);
      var samples, idToIndex := FillTables(currentCooked.data, raw);
      FilledIsCooked(currentCooked.data, raw, samples, idToIndex);
      var buttonState := if raw.pointerCount == 0 then {} else currentRaw.buttonState;
      currentCooked := CookedState(
        CookedPointerData(raw.pointerCount, samples, raw.hoveringIdBits, raw.touchingIdBits, idToIndex), buttonState);
    }

    method DispatchVirtualKey(up: bool, canceled: bool)
      requires KeysAlternate(keyOutbox)
      requires if up then KeyHeld(keyOutbox) == Some(virtualKey.keyCode) else KeyHeld(keyOutbox) == None
      modifies this`keyOutbox
      ensures KeysAlternate(keyOutbox)
      ensures KeyHeld(keyOutbox) == if up then None else Some(virtualKey.keyCode)
      ensures keyOutbox == old(keyOutbox) + [if up then KeyUp(virtualKey.keyCode, canceled) else KeyDown(virtualKey.keyCode)]
    {
      var e := if up then KeyUp(virtualKey.keyCode, canceled) else KeyDown(virtualKey.keyCode);
      OneMoreKey(keyOutbox, e);
      keyOutbox := keyOutbox + [e];
    }

    /** The touch that pressed the current virtual key has gone, or is still on that key. */
    ghost predicate KeyGoes()
      requires currentRaw.data.HasIds()
      reads this`virtualKey, this`currentRaw
    {
      virtualKey.down && currentRaw.data.touchingIdBits == {}
    }

    ghost predicate KeyStays()
      requires currentRaw.data.HasIds()
      reads this`virtualKey, this`currentRaw
    {
      virtualKey.down && |currentRaw.data.touchingIdBits| == 1 && KeyTouched() == Some(virtualKey.keyCode)
    }

    ghost predicate StartsOutside()
      requires currentRaw.data.HasIds()
      reads this`lastRaw, this`currentRaw
    {
      var touching := currentRaw.data.touchingIdBits;
      lastRaw.data.touchingIdBits == {} && touching != {}
      && !insideSurface(FirstTouching(currentRaw.data).x, FirstTouching(currentRaw.data).y)
    }

    /** The virtual key under the first touch, if there is one. */
    ghost function KeyTouched(): Option<int>
      requires currentRaw.data.HasIds()
      reads this`currentRaw
    {
      if currentRaw.data.touchingIdBits == {} then None
      else virtualKeyAt(FirstTouching(currentRaw.data).x, FirstTouching(currentRaw.data).y)
    }

    /** The touches are not for the screen: they belong to the virtual key that is down, or began outside. */
    ghost predicate ConsumesTouches()
      requires currentRaw.data.HasIds()
      reads this`virtualKey, this`lastRaw, this`currentRaw
    {
      KeyGoes() || KeyStays() || StartsOutside()
    }

    ghost function KeyEnd(): seq<KeyEvent>
      requires currentRaw.data.HasIds()
      reads this`virtualKey, this`currentRaw
    {
      if virtualKey.down && !KeyStays() && !virtualKey.ignored
      then [KeyUp(virtualKey.keyCode, !KeyGoes())] else []
    }

    ghost function KeyStart(when: int): seq<KeyEvent>
      requires currentRaw.data.HasIds()
      reads this`virtualKey, this`lastRaw, this`currentRaw
    {
      if !KeyGoes() && !KeyStays() && StartsOutside() && |currentRaw.data.touchingIdBits| == 1 && KeyTouched().Some?
         && !dropsVirtualKey(when, KeyTouched().value)
      then [KeyDown(KeyTouched().value)] else []
    }

    /** The virtual key afterwards: it ends, stays down, or another one begins. */
    ghost function NextKey(when: int): VirtualKey
      requires currentRaw.data.HasIds()
      reads this`virtualKey, this`lastRaw, this`currentRaw
    {
      if KeyGoes() then virtualKey.(down := false)
      else if KeyStays() then virtualKey
      else if StartsOutside() && |currentRaw.data.touchingIdBits| == 1 && KeyTouched().Some?
        then VirtualKey(true, dropsVirtualKey(when, KeyTouched().value), KeyTouched().value)
      else virtualKey.(down := false)
    }

    /** What that means for the touch whose id is least, which is the only one where there is just one. */
    lemma VirtualKeyRules(when: int, id: nat)
      requires currentRaw.data.HasIds() && currentRaw.data.Sized() && id in currentRaw.data.touchingIdBits
      requires forall other :: other in currentRaw.data.touchingIdBits ==> id <= other
      ensures id <= MAX_POINTER_ID
      ensures var touching := currentRaw.data.touchingIdBits;
              var p := currentRaw.data.pointers[currentRaw.data.idToIndex[id]];
              var key, begins := virtualKeyAt(p.x, p.y), lastRaw.data.touchingIdBits == {} && !insideSurface(p.x, p.y);
              var stays := virtualKey.down && touching == {id} && key == Some(virtualKey.keyCode);
              && (stays ==> ConsumesTouches() && NextKey(when) == virtualKey && KeyEnd() == KeyStart(when) == [])
              && (!stays ==> (ConsumesTouches() <==> begins))
              && (!stays && virtualKey.down && !virtualKey.ignored ==> KeyEnd() == [KeyUp(virtualKey.keyCode, true)])
              && (!virtualKey.down || virtualKey.ignored ==> KeyEnd() == [])
              && (!stays && begins && touching == {id} && key.Some? ==>
                    NextKey(when) == VirtualKey(true, dropsVirtualKey(when, key.value), key.value)
                    && KeyStart(when) == if dropsVirtualKey(when, key.value) then [] else [KeyDown(key.value)])
              && (!stays && !(begins && touching == {id} && key.Some?) ==> KeyStart(when) == [] && !NextKey(when).down)
    {
      hide RawPointerData.HasIds, FirstMarked, KeyTouched;
      IdsAreABijection(currentRaw.data);
      KeyTouchedIs(id);
    }

    lemma KeyTouchedIs(id: nat)
      requires currentRaw.data.HasIds() && currentRaw.data.Sized() && id in currentRaw.data.touchingIdBits
      requires forall other :: other in currentRaw.data.touchingIdBits ==> id <= other
      ensures |currentRaw.data.touchingIdBits| == 1 <==> currentRaw.data.touchingIdBits == {id}
      ensures id <= MAX_POINTER_ID && currentRaw.data.idToIndex[id] < currentRaw.data.pointerCount
      ensures FirstTouching(currentRaw.data) == currentRaw.data.pointers[currentRaw.data.idToIndex[id]]
      ensures KeyTouched() == virtualKeyAt(FirstTouching(currentRaw.data).x, FirstTouching(currentRaw.data).y)
    {
      hide RawPointerData.HasIds;
      IdsAreABijection(currentRaw.data);
      var touching := currentRaw.data.touchingIdBits;
      assert FirstMarked(touching) == id;
      assert |touching| == |touching - {id}| + 1;
    }

    /** Without a touch the key that is down goes up, and the touches are consumed only to tell so. */
    lemma NoTouchRules(when: int)
      requires currentRaw.data.HasIds() && currentRaw.data.touchingIdBits == {}
      ensures (ConsumesTouches() <==> virtualKey.down) && !NextKey(when).down && KeyStart(when) == []
      ensures KeyEnd() == if virtualKey.down && !virtualKey.ignored then [KeyUp(virtualKey.keyCode, false)] else []
    {
    }

    /** `consumeRawTouches`: the key that was down goes up, cancelled if the touch slid off it, and a touch
        that begins on a key outside the surface presses it.  A touch on the screen disables the virtual keys
        for a while. */
    method ConsumeRawTouches(when: int) returns (consumed: bool)
      requires KeysValid() && currentRaw.data.HasIds()
      modifies this`virtualKey, this`keyOutbox, this`keysDisabledUntil
      ensures KeysValid()
      ensures keysDisabledUntil == if !consumed && virtualKeyQuietTime > 0 && currentRaw.data.touchingIdBits != {}
                                   then Some(when + virtualKeyQuietTime) else old(keysDisabledUntil)
      ensures consumed == old(ConsumesTouches())
      ensures keyOutbox == old(keyOutbox) + old(KeyEnd()) + old(KeyStart(when))
      ensures virtualKey == old(NextKey(when)) && (virtualKey.down ==> consumed)
    {
      hide KeysAlternate, KeyHeld, FirstTouching, RawPointerData.HasIds;
      var touching := currentRaw.data.touchingIdBits;
      if virtualKey.down {
        if touching == {} {
          virtualKey := virtualKey.(down := false);
          if !virtualKey.ignored {
            DispatchVirtualKey(true, false);
          }
          return true;
        }
        if |touching| == 1 {
          var pointer := FirstTouching(currentRaw.data);
          if virtualKeyAt(pointer.x, pointer.y) == Some(virtualKey.keyCode) {
            return true;
          }
        }
        virtualKey := virtualKey.(down := false);
        if !virtualKey.ignored {
          DispatchVirtualKey(true, true);
        }
      }
      if lastRaw.data.touchingIdBits == {} && touching != {} {
        var pointer := FirstTouching(currentRaw.data);
        if !insideSurface(pointer.x, pointer.y) {
          if |touching| == 1 {
            var key := virtualKeyAt(pointer.x, pointer.y);
            if key.Some? {
              virtualKey := VirtualKey(true, dropsVirtualKey(when, key.value), key.value);
              if !virtualKey.ignored {
                DispatchVirtualKey(false, false);
              }
            }
          }
          return true;
        }
      }
      if virtualKeyQuietTime > 0 && touching != {} {
        keysDisabledUntil := Some(when + virtualKeyQuietTime);
      }
      return false;
    }

    /** The five dispatchers. */
    method DispatchFrame()
      requires lastCooked.data.Valid() && currentCooked.data.Valid()
      requires ButtonsHavePointer(lastCooked) && ButtonsHavePointer(currentCooked)
      requires sentHoverEnter <==> Hovers(lastCooked)
      modifies this`outbox, this`lastCooked, this`sentHoverEnter
      ensures outbox == old(outbox) + FrameEvents(old(lastCooked), currentCooked, currentRaw.buttonState, old(sentHoverEnter))
      ensures lastCooked == old(lastCooked).(data := AfterTouches(old(lastCooked), currentCooked))
      ensures sentHoverEnter <==> Hovers(currentCooked)
    {
      hide ButtonReleaseEvents, HoverExitEvents, TouchEvents, HoverEvents, ButtonPressEvents, AfterTouches, CookedPointerData.Valid;
      ghost var sent := outbox;
      ghost var last, hovering := lastCooked, sentHoverEnter;
      ghost var e0, e1 := ButtonReleaseEvents(last, currentCooked), HoverExitEvents(last, currentCooked, hovering);
      ghost var e2, e3 := TouchEvents(last, currentCooked), HoverEvents(currentCooked, currentRaw.buttonState, hovering && !HoverEnds(currentCooked.data));
      ghost var e4 := ButtonPressEvents(last, currentCooked);
      DispatchButtonRelease();
      DispatchHoverExit();
      DispatchTouches();
      AfterTouchesIsValid(last, currentCooked);
      DispatchHoverEnterAndMove();
      DispatchButtonPress();
      assert outbox == sent + e0 + e1 + e2 + e3 + e4;
      AppendFive(sent, e0, e1, e2, e3, e4);
    }

    /** `applyExternalStylusButtonState`. */
    method ApplyExternalStylusButtonState()
      modifies this`currentRaw
      ensures currentRaw == old(currentRaw).(buttonState := if externalStylusConnected && externalStylusId.Some?
                                             then old(currentRaw).buttonState + stylus.buttons else old(currentRaw).buttonState)
    {
      if externalStylusConnected && externalStylusId.Some? {
        currentRaw := currentRaw.(buttonState := currentRaw.buttonState + stylus.buttons);
      }
    }

    twostate lemma ButtonsDoNotMatter()
      requires old(currentRaw.data.HasIds()) && currentRaw.data == old(currentRaw).data && unchanged(`virtualKey, `lastRaw)
      ensures ConsumesTouches() == old(ConsumesTouches())
    {
    }

    /** `cookAndDispatch`: the state and the events are those of one frame, made of the current raw sample
        or, if it was consumed, of an empty one. */
    method CookAndDispatch(when: int)
      requires InStep()
      modifies this`outbox, this`keyOutbox, this`virtualKey, this`keysDisabledUntil, this`currentRaw, this`currentCooked, this`lastRaw,
               this`lastCooked, this`sentHoverEnter, this`motionAborted
      ensures InStep()
      ensures currentRaw.data == if old(ConsumesTouches()) then old(currentRaw).data.Clear() else old(currentRaw).data
      ensures currentRaw.buttonState == if externalStylusConnected && externalStylusId.Some?
                                        then old(currentRaw).buttonState + stylus.buttons else old(currentRaw).buttonState
      ensures outbox == old(outbox) + Events(old(StreamState()), Frame(currentRaw.data, currentRaw.buttonState))
      ensures StreamState() == Next(old(StreamState()), Frame(currentRaw.data, currentRaw.buttonState))
      ensures VisibleOf(lastRaw) == VisibleOf(currentRaw)
      ensures motionAborted == (old(motionAborted) && currentRaw.data.pointerCount > 0)
      ensures RememberAll(BLANK, outbox) == if motionAborted then BLANK else FrameMemory(currentRaw.data, currentRaw.buttonState)
      ensures lastRaw.when == currentRaw.when == old(currentRaw).when
    {
      hide Inv, Leads, Known, RawPointerData.HasIds, KeysValid, Events, Next, ConsumesTouches, KeyEnd, KeyStart, NextKey, FirstTouching, VisibleOf,
           Remembers, RememberAll, Remembered, Recalls, FrameMemory;
      RecallsWhat();
      ghost var s := StreamState();
      CompleteIsSized(currentRaw.data);
      ScratchIsSized(s, currentRaw.data);
      currentCooked := CookedState(currentCooked.data.Clear(), {});
      ApplyExternalStylusButtonState();
      ButtonsDoNotMatter();
      var consumed := ConsumeRawTouches(when);
      if consumed {
        CompleteIsSized(currentRaw.data);
        ClearHasIds(currentRaw.data);
        currentRaw := currentRaw.(data := currentRaw.data.Clear());
      }
      CookAndDispatchRest(s);
      RememberLast(s);
    }

    lemma RecallsWhat()
      requires Inv(StreamState()) && lastRaw.data.HasIds() && Remembers()
      ensures RememberAll(BLANK, outbox) == Remembered(StreamState())
    {
    }

    /** The last raw sample has the pointers of the current one. */
    lemma RememberLast(s: Stream)
      requires Inv(StreamState()) && lastRaw.data.HasIds() && currentRaw.data.HasIds() && VisibleOf(lastRaw) == VisibleOf(currentRaw)
      requires Recalls(StreamState(), currentRaw.data, currentRaw.buttonState, outbox)
      requires Inv(s) && StreamState() == Next(s, Frame(currentRaw.data, currentRaw.buttonState))
      ensures Remembers() && motionAborted == (s.motionAborted && currentRaw.data.pointerCount > 0)
      ensures RememberAll(BLANK, outbox) == if motionAborted then BLANK else FrameMemory(currentRaw.data, currentRaw.buttonState)
    {
      hide Inv, RawPointerData.HasIds, FrameMemory, RememberAll, Remembered;
      CompleteIsSized(lastRaw.data);
      CompleteIsSized(currentRaw.data);
      SameFrameMemory(lastRaw.data, currentRaw.data, currentRaw.buttonState);
    }

    /** The part after the raw sample is final. */
    method CookAndDispatchRest(ghost s: Stream)
      requires Inv(s) && s.last == lastCooked && s.sentHoverEnter == sentHoverEnter && s.motionAborted == motionAborted
      requires currentCooked.data == s.current.data.Clear()
      requires Leads(Listener({}, false), outbox, Known(s)) && RememberAll(BLANK, outbox) == Remembered(s)
      requires lastRaw.data.HasIds() && currentRaw.data.HasIds()
      modifies this`outbox, this`currentCooked, this`lastRaw, this`lastCooked, this`sentHoverEnter, this`motionAborted
      ensures outbox == old(outbox) + Events(s, Frame(currentRaw.data, currentRaw.buttonState))
      ensures StreamState() == Next(s, Frame(currentRaw.data, currentRaw.buttonState))
      ensures Leads(Listener({}, false), outbox, Known(StreamState()))
      ensures lastRaw.data.HasIds() && VisibleOf(lastRaw) == VisibleOf(currentRaw) && lastRaw.when == currentRaw.when
      ensures Inv(StreamState()) && Recalls(StreamState(), currentRaw.data, currentRaw.buttonState, outbox)
    {
      hide Inv, Leads, Known, RawPointerData.HasIds, FrameEvents, Cooked, AfterTouches, CookedPointerData.Valid, CookedPointerData.Sized,
           Events, Next, VisibleOf, CopyRaw, RememberAll, Remembered, Recalls;
      ghost var raw, buttons := currentRaw.data, currentRaw.buttonState;
      StepGoesOn(s, Frame(raw, buttons), outbox);
      RecallsFrame(s, outbox, raw, buttons);
      FrameStep(s, raw, buttons);
      ghost var current := CookedFrame(s, raw, buttons);
      CookPointerData();
      if !motionAborted {
        DispatchFrame();
      }
      if currentCooked.data.pointerCount == 0 {
        motionAborted := false;
      }
      CompleteIsSized(lastRaw.data);
      CopyLooksTheSame(lastRaw.data, currentRaw);
      lastRaw := RawState(currentRaw.when, CopyRaw(lastRaw.data, currentRaw.data), currentRaw.buttonState);
      lastCooked := CookedState(lastCooked.data.CopyFrom(currentCooked.data), currentCooked.buttonState);
    }

    /** `abortTouches`. */
    method AbortTouches()
      requires Valid()
      modifies this`outbox, this`motionAborted
      ensures Valid()
      ensures outbox == old(outbox) + Events(old(StreamState()), CancelTouch)
      ensures StreamState() == Next(old(StreamState()), CancelTouch)
    {
      hide Inv, Leads, Known, RawPointerData.HasIds, KeysValid, NothingLost, TimeoutFits, Waits, Events, Next, MotionFor, Recalls;
      ghost var s := StreamState();
      RecallsCancel(s, outbox, lastRaw.data, lastRaw.buttonState);
      StepGoesOn(s, CancelTouch, outbox);
      CancelStep(s);
      var currentIdBits := currentCooked.data.touchingIdBits;
      if currentIdBits != {} {
        DispatchMotion(Plain(Cancel), currentCooked.data, currentIdBits, currentCooked.buttonState);
        motionAborted := true;
      }
    }

    /** `reset`, together with the device reset that the input device announces right after it. */
    method Reset()
      requires Valid()
      modifies this`outbox, this`keyOutbox, this`virtualKey, this`currentRaw, this`currentCooked, this`lastRaw, this`lastCooked,
               this`sentHoverEnter, this`motionAborted, this`rawStatesPending, this`fates,
               this`stylus, this`externalStylusId, this`fusionTimeout, this`stylusDataPending
      ensures Valid()
      ensures outbox == old(outbox) + [DeviceReset]
      ensures StreamState() == Next(old(StreamState()), TouchRuns.Reset)
      ensures rawStatesPending == [] && queued == old(queued) && fates == old(fates) + old(AllDropped(rawStatesPending))
      ensures fusionTimeout == None && externalStylusId == None && !stylusDataPending && !virtualKey.down
      ensures currentRaw.data.pointerCount == lastRaw.data.pointerCount == 0 && currentRaw.buttonState == lastRaw.buttonState == {}
      ensures keyOutbox == old(keyOutbox) + [KeyReset]
    {
      hide InStep, NothingLost, AllDropped, Events, Next, VisibleOf, RawPointerData.HasIds, RawPointerData.Clear;
      DropPending();
      ResetStream();
      ResetExternalStylus();
    }

    /** The samples are cleared and the listeners are told so. */
    method ResetStream()
      requires InStep()
      modifies this`outbox, this`keyOutbox, this`virtualKey, this`currentRaw, this`currentCooked, this`lastRaw, this`lastCooked,
               this`sentHoverEnter, this`motionAborted
      ensures InStep() && outbox == old(outbox) + [DeviceReset] && keyOutbox == old(keyOutbox) + [KeyReset] && !virtualKey.down
      ensures StreamState() == Next(old(StreamState()), TouchRuns.Reset)
      ensures currentRaw.data.pointerCount == lastRaw.data.pointerCount == 0 && currentRaw.buttonState == lastRaw.buttonState == {}
    {
      hide Inv, Leads, Known, RawPointerData.HasIds, KeysAlternate, KeyHeld, Events, Next, Recalls;
      ghost var s := StreamState();
      StepGoesOn(s, TouchRuns.Reset, outbox);
      ResetStep(s);
      ClearStates();
      RecallsReset(s, outbox, lastRaw.data);
      sentHoverEnter, motionAborted := false, false;
      virtualKey := virtualKey.(down := false);
      outbox := outbox + [DeviceReset];
      OneMoreKey(keyOutbox, KeyReset);
      keyOutbox := keyOutbox + [KeyReset];
    }

    /** All pending samples are dropped. */
    method DropPending()
      requires NothingLost()
      modifies this`rawStatesPending, this`fates
      ensures NothingLost() && rawStatesPending == [] && fates == old(fates) + old(AllDropped(rawStatesPending))
    {
      hide RawPointerData.HasIds, Settled, VisibleOf;
      MoreFates(fates, AllDropped(rawStatesPending), VisibleAll(rawStatesPending));
      fates := fates + AllDropped(rawStatesPending);
      rawStatesPending := [];
      assert queued + VisibleAll([]) == queued;
    }

    method ClearStates()
      requires currentRaw.data.HasIds() && lastRaw.data.HasIds()
      modifies this`currentRaw, this`currentCooked, this`lastRaw, this`lastCooked
      ensures currentRaw == RawState(0, old(currentRaw).data.Clear(), {}) && currentRaw.data.HasIds()
      ensures lastRaw == RawState(0, old(lastRaw).data.Clear(), {}) && lastRaw.data.HasIds()
      ensures currentCooked == CookedState(old(currentCooked).data.Clear(), {}) && lastCooked == CookedState(old(lastCooked).data.Clear(), {})
    {
      hide RawPointerData.HasIds;
      CompleteIsSized(currentRaw.data);
      CompleteIsSized(lastRaw.data);
      ClearHasIds(currentRaw.data);
      ClearHasIds(lastRaw.data);
      currentRaw := RawState(0, currentRaw.data.Clear(), {});
      currentCooked := CookedState(currentCooked.data.Clear(), {});
      lastRaw := RawState(0, lastRaw.data.Clear(), {});
      lastCooked := CookedState(lastCooked.data.Clear(), {});
    }

    // ----- the external stylus -----

    method ResetExternalStylus()
      modifies this`stylus, this`externalStylusId, this`fusionTimeout, this`stylusDataPending
      ensures externalStylusId == None && fusionTimeout == None && !stylusDataPending && stylus == StylusState(LLONG_MAX, false, {})
    {
      stylus := StylusState(LLONG_MAX, false, {});
      externalStylusId, fusionTimeout, stylusDataPending := None, None, false;
    }

    method ClearStylusDataPendingFlags()
      modifies this`fusionTimeout, this`stylusDataPending
      ensures fusionTimeout == None && !stylusDataPending
    {
      stylusDataPending, fusionTimeout := false, None;
    }

    /** A sample has to wait for stylus data: it is the first one with pointers, a stylus is connected but
        has not reported pressure, and the timeout has not expired. */
    ghost predicate MustWait(state: RawState, timeout: bool)
      reads this`stylus, this`lastRaw
    {
      && externalStylusConnected && !timeout && !stylus.pressed
      && lastRaw.data.pointerCount == 0 && state.data.pointerCount != 0
    }

    /** `assignExternalStylusId`.  The first marked bit of an empty set is past its end, whatever its number;
        no touch has it, so that it is dropped again at once. */
    method AssignExternalStylusId(state: RawState, timeout: bool) returns (wait: bool)
      modifies this`stylus, this`externalStylusId, this`fusionTimeout, this`stylusDataPending, this`requestedTimeout
      ensures var begins := externalStylusConnected && lastRaw.data.pointerCount == 0 && state.data.pointerCount != 0;
              var givesUp, touching := begins && timeout && !old(stylus).pressed, state.data.touchingIdBits;
              && (wait <==> begins && !timeout && !old(stylus).pressed)
              && stylus == (if givesUp then StylusState(LLONG_MAX, false, {}) else old(stylus))
              && stylusDataPending == (!givesUp && old(stylusDataPending))
              && fusionTimeout == (if givesUp then None
                                   else if wait && old(fusionTimeout) == None then Some(state.when + EXTERNAL_STYLUS_DATA_TIMEOUT)
                                   else old(fusionTimeout))
              && requestedTimeout == (if wait then fusionTimeout else old(requestedTimeout))
              && (wait || !externalStylusConnected ==> externalStylusId == old(externalStylusId))
              && (!wait && begins ==> externalStylusId == if stylus.pressed && touching != {} then Some(FirstMarked(touching)) else None)
              && (!wait && !begins && externalStylusConnected ==>
                    externalStylusId == if old(externalStylusId).Some? && old(externalStylusId).value in touching then old(externalStylusId) else None)
    {
      if !externalStylusConnected {
        return false;
      }
      if lastRaw.data.pointerCount == 0 && state.data.pointerCount != 0 {
        if stylus.pressed {
          var first: nat;
          if state.data.touchingIdBits == {} {
            first := *;
          } else {
            first := FirstMarked(state.data.touchingIdBits);
          }
          externalStylusId := Some(first);
        } else if timeout {
          ResetExternalStylus();
        } else {
          if fusionTimeout == None {
            fusionTimeout := Some(state.when + EXTERNAL_STYLUS_DATA_TIMEOUT);
          }
          requestedTimeout := fusionTimeout;
          return true;
        }
      }
      if externalStylusId.Some? && externalStylusId.value !in state.data.touchingIdBits {
        externalStylusId := None;
      }
      return false;
    }

    // ----- the queue of raw samples -----

    /** Cooks one pending sample. */
    method CookPending(next: RawState)
      requires InStep() && next.data.HasIds()
      modifies this`outbox, this`keyOutbox, this`virtualKey, this`keysDisabledUntil, this`currentRaw, this`currentCooked, this`lastRaw,
               this`lastCooked, this`sentHoverEnter, this`motionAborted, this`fates
      ensures InStep()
      ensures fates == old(fates) + [Used(VisibleOf(next))]
      ensures lastRaw.when == if next.when < old(lastRaw.when) then old(lastRaw.when) else next.when
    {
      hide Inv, Leads, Known, RawPointerData.HasIds, KeysValid, Events, Next, ConsumesTouches, VisibleOf,
           Remembers, RememberAll, FrameMemory;
      CompleteIsSized(currentRaw.data);
      CompleteIsSized(next.data);
      CopyLooksTheSame(currentRaw.data, next);
      currentRaw := RawState(next.when, CopyRaw(currentRaw.data, next.data), next.buttonState);
      if currentRaw.when < lastRaw.when {
        currentRaw := currentRaw.(when := lastRaw.when);
      }
      fates := fates + [Used(VisibleOf(currentRaw))];
      CookAndDispatch(currentRaw.when);
    }

    /** Cooks the last sample once more, with the stylus data that has come since. */
    method CookAgain(when: int)
      requires InStep()
      modifies this`outbox, this`keyOutbox, this`virtualKey, this`keysDisabledUntil, this`currentRaw, this`currentCooked, this`lastRaw,
               this`lastCooked, this`sentHoverEnter, this`motionAborted, this`fates
      ensures InStep() && lastRaw.when == old(lastRaw.when)
      ensures fates == old(fates) + [UsedAgain(old(VisibleOf(lastRaw)))]
    {
      hide Inv, Leads, Known, RawPointerData.HasIds, KeysValid, Events, Next, ConsumesTouches, VisibleOf,
           Remembers, RememberAll, FrameMemory;
      CompleteIsSized(currentRaw.data);
      CompleteIsSized(lastRaw.data);
      CopyLooksTheSame(currentRaw.data, lastRaw);
      currentRaw := RawState(lastRaw.when, CopyRaw(currentRaw.data, lastRaw.data), lastRaw.buttonState);
      fates := fates + [UsedAgain(VisibleOf(currentRaw))];
      CookAndDispatch(when);
    }

    /** The queue after a prefix of it was cooked, in order and once each. */
    ghost predicate Drained(queue: seq<RawState>, before: seq<Fate>, again: seq<Fate>)
      reads this`rawStatesPending, this`fates
      requires forall i :: 0 <= i < |queue| ==> queue[i].data.HasIds()
    {
      var k := |queue| - |rawStatesPending|;
      && 0 <= k && rawStatesPending == queue[k..]
      && fates == before + AllUsed(queue[..k]) + again
    }

    /** What stays behind waits for stylus data, and then a timeout is set. */
    ghost predicate HeadWaits(timeout: bool)
      reads this`rawStatesPending, this`stylus, this`lastRaw, this`fusionTimeout
    {
      rawStatesPending != [] ==> MustWait(rawStatesPending[0], timeout) && fusionTimeout != None
    }

    /** Stylus data came without a new sample and has waited long enough. */
    ghost predicate Repeats(timeout: bool)
      reads this`rawStatesPending, this`stylusDataPending
    {
      timeout && stylusDataPending && rawStatesPending == []
    }

    /** `processRawTouches`: a prefix of the queue is cooked; the rest waits for stylus data, and with an
        expired timeout nothing waits.  Stylus data that came without a new sample is delivered by
        cooking the last sample again when the timeout expires. */
    method ProcessRawTouches(timeout: bool)
      requires InStep() && NothingLost() && (disabled || timeout || TimeoutFits())
      requires !disabled && timeout && fusionTimeout.Some? ==> rawStatesPending != [] || stylusDataPending
      modifies this
      ensures Valid() && queued == old(queued)
      ensures disabled ==> rawStatesPending == [] && outbox == old(outbox) && fates == old(fates) + old(AllDropped(rawStatesPending))
      ensures !disabled ==>
                Drained(old(rawStatesPending), old(fates), if old(Repeats(timeout)) then [UsedAgain(old(VisibleOf(lastRaw)))] else [])
      ensures !disabled && old(rawStatesPending) != [] ==>
                (rawStatesPending == old(rawStatesPending) <==> old(MustWait(rawStatesPending[0], timeout)))
      ensures !disabled ==> HeadWaits(timeout) && lastRaw.when >= old(lastRaw.when)
      ensures !disabled && timeout ==> rawStatesPending == [] && !stylusDataPending && fusionTimeout == None
      ensures !disabled && !timeout && old(rawStatesPending) == [] ==>
                stylusDataPending == old(stylusDataPending)
                && fusionTimeout == if stylusDataPending && old(fusionTimeout) == None then Some(old(stylus).when + TOUCH_DATA_TIMEOUT)
                                    else old(fusionTimeout)
    {
      hide InStep, RawPointerData.HasIds, Settled, VisibleOf, AllUsed;
      if disabled {
        DropAll();
        return;
      }
      DrainPending(timeout);
      if stylusDataPending {
        if timeout {
          var when := (if fusionTimeout.Some? then fusionTimeout.value else LLONG_MAX) - STYLUS_DATA_LATENCY;
          ClearStylusDataPendingFlags();
          Repeat(when);
        } else if fusionTimeout == None {
          fusionTimeout := Some(stylus.when + TOUCH_DATA_TIMEOUT);
          requestedTimeout := fusionTimeout;
        }
      }
    }

    /** A disabled device drops all input. */
    method DropAll()
      requires InStep() && NothingLost()
      modifies this`currentRaw, this`rawStatesPending, this`fates
      ensures InStep() && NothingLost() && rawStatesPending == [] && fates == old(fates) + old(AllDropped(rawStatesPending))
    {
      hide Inv, Leads, Known, RawPointerData.HasIds, KeysValid, Settled, VisibleOf, Remembers;
      CompleteIsSized(currentRaw.data);
      ClearHasIds(currentRaw.data);
      currentRaw := RawState(0, currentRaw.data.Clear(), {});
      DropPending();
    }

    method Repeat(when: int)
      requires InStep() && NothingLost()
      modifies this`outbox, this`keyOutbox, this`virtualKey, this`keysDisabledUntil, this`currentRaw, this`currentCooked, this`lastRaw,
               this`lastCooked, this`sentHoverEnter, this`motionAborted, this`fates
      ensures InStep() && NothingLost() && lastRaw.when == old(lastRaw.when)
      ensures fates == old(fates) + [UsedAgain(old(VisibleOf(lastRaw)))]
    {
      hide InStep, RawPointerData.HasIds, Settled, VisibleOf;
      RawsHaveIds();
      OneMoreFate(fates, UsedAgain(VisibleOf(lastRaw)));
      CookAgain(when);
    }

    /** One pending sample: it is cooked, unless stylus data may still come for it. */
    method CookUnlessWaiting(next: RawState, timeout: bool) returns (waiting: bool)
      requires InStep() && next.data.HasIds()
      modifies this`outbox, this`keyOutbox, this`virtualKey, this`keysDisabledUntil, this`currentRaw, this`currentCooked, this`lastRaw,
               this`lastCooked, this`sentHoverEnter, this`motionAborted, this`fates,
               this`stylus, this`externalStylusId, this`fusionTimeout, this`stylusDataPending, this`requestedTimeout
      ensures InStep()
      ensures waiting <==> old(MustWait(next, timeout))
      ensures waiting ==> MustWait(next, timeout) && fusionTimeout != None && requestedTimeout == fusionTimeout && fates == old(fates)
                          && lastRaw == old(lastRaw) && stylusDataPending == old(stylusDataPending)
      ensures !waiting ==> fates == old(fates) + [Used(VisibleOf(next))] && lastRaw.when >= old(lastRaw.when)
                           && !stylusDataPending && fusionTimeout == None
    {
      hide Inv, Leads, Known, RawPointerData.HasIds, KeysValid, VisibleOf, Remembers;
      waiting := AssignExternalStylusId(next, timeout);
      if !waiting {
        ClearStylusDataPendingFlags();
        CookPending(next);
      }
    }

    /** Cooks pending samples until one has to wait. */
    method CookUntilWaiting(timeout: bool) returns (count: nat, waiting: bool)
      requires InStep() && QueueValid()
      modifies this`outbox, this`keyOutbox, this`virtualKey, this`keysDisabledUntil, this`currentRaw, this`currentCooked, this`lastRaw,
               this`lastCooked, this`sentHoverEnter, this`motionAborted, this`fates,
               this`stylus, this`externalStylusId, this`fusionTimeout, this`stylusDataPending, this`requestedTimeout
      ensures InStep() && count <= |rawStatesPending| && fates == old(fates) + AllUsed(rawStatesPending[..count])
      ensures if waiting then count < |rawStatesPending| && MustWait(rawStatesPending[count], timeout)
                              && fusionTimeout != None && requestedTimeout == fusionTimeout
              else count == |rawStatesPending|
      ensures lastRaw.when >= old(lastRaw.when)
      ensures rawStatesPending != [] ==> (count == 0 <==> old(MustWait(rawStatesPending[0], timeout)))
      ensures if count == 0 then stylusDataPending == old(stylusDataPending) && lastRaw == old(lastRaw) else !stylusDataPending
      ensures !waiting ==> fusionTimeout == if count == 0 then old(fusionTimeout) else None
      ensures !waiting && count == 0 ==> requestedTimeout == old(requestedTimeout)
      ensures !waiting && count == 0 ==> stylus == old(stylus)
    {
      hide InStep, RawPointerData.HasIds, VisibleOf, MustWait;
      count, waiting := 0, false;
      while count < |rawStatesPending| && !waiting
        invariant InStep() && QueueValid() && count <= |rawStatesPending| && fates == old(fates) + AllUsed(rawStatesPending[..count])
        invariant waiting ==> count < |rawStatesPending| && MustWait(rawStatesPending[count], timeout)
                              && fusionTimeout != None && requestedTimeout == fusionTimeout
        invariant lastRaw.when >= old(lastRaw.when)
        invariant count > 0 ==> !old(MustWait(rawStatesPending[0], timeout))
        invariant count == 0 ==> lastRaw == old(lastRaw) && if waiting then old(MustWait(rawStatesPending[0], timeout)) else stylus == old(stylus)
        invariant if count == 0 then stylusDataPending == old(stylusDataPending) && lastRaw == old(lastRaw) else !stylusDataPending
        invariant !waiting ==> fusionTimeout == if count == 0 then old(fusionTimeout) else None
        invariant !waiting && count == 0 ==> requestedTimeout == old(requestedTimeout)
        decreases |rawStatesPending| - count, if waiting then 0 else 1
      {
        waiting := CookUnlessWaiting(rawStatesPending[count], timeout);
        if !waiting {
          OneMoreUsed(rawStatesPending, count);
          count := count + 1;
        }
      }
    }

    method DrainPending(timeout: bool)
      requires InStep() && NothingLost() && (timeout || TimeoutFits())
      requires timeout && fusionTimeout.Some? ==> rawStatesPending != [] || stylusDataPending
      modifies this`outbox, this`keyOutbox, this`virtualKey, this`keysDisabledUntil, this`currentRaw, this`currentCooked, this`lastRaw,
               this`lastCooked, this`sentHoverEnter, this`motionAborted, this`fates, this`rawStatesPending,
               this`stylus, this`externalStylusId, this`fusionTimeout, this`stylusDataPending, this`requestedTimeout
      ensures InStep() && NothingLost() && HeadWaits(timeout) && lastRaw.when >= old(lastRaw.when)
      ensures if rawStatesPending == old(rawStatesPending)
              then stylusDataPending == old(stylusDataPending) && lastRaw == old(lastRaw) else !stylusDataPending
      ensures timeout ==> rawStatesPending == [] && (fusionTimeout.Some? ==> stylusDataPending)
      ensures Drained(old(rawStatesPending), old(fates), [])
      ensures timeout || TimeoutFits()
      ensures old(rawStatesPending) == [] ==> stylus == old(stylus) && fusionTimeout == old(fusionTimeout)
      ensures old(rawStatesPending) != [] ==> (rawStatesPending == old(rawStatesPending) <==> old(MustWait(rawStatesPending[0], timeout)))
    {
      hide InStep, RawPointerData.HasIds, Settled, VisibleOf, VisibleAll, AllUsed;
      ghost var queue, before := rawStatesPending, fates;
      var count, waiting := CookUntilWaiting(timeout);
      PrefixUsed(before, queue, count);
      rawStatesPending := rawStatesPending[count..];
      assert |queue| - |rawStatesPending| == count && fates == before + AllUsed(queue[..count]) + [];
    }

    /** `timeoutExpired` in direct mode.  The mapper's last request has been used up by now; if it came too
        early the mapper asks again. */
    method TimeoutExpired(when: int)
      requires Valid()
      modifies this
      ensures Valid() && queued == old(queued)
      ensures old(fusionTimeout.Some? && fusionTimeout.value < when) ==> rawStatesPending == []
      ensures old(fusionTimeout.Some? && fusionTimeout.value < when) && !disabled ==>
                Drained(old(rawStatesPending), old(fates), if old(Repeats(true)) then [UsedAgain(old(VisibleOf(lastRaw)))] else [])
                && fusionTimeout == None
      ensures !old(fusionTimeout.Some? && fusionTimeout.value < when) ==>
                rawStatesPending == old(rawStatesPending) && outbox == old(outbox) && fates == old(fates) && requestedTimeout == fusionTimeout
    {
      hide InStep, RawPointerData.HasIds, Settled, VisibleOf, AllUsed;
      requestedTimeout := None;
      if fusionTimeout.Some? && fusionTimeout.value < when {
        ProcessRawTouches(true);
      } else if fusionTimeout.Some? {
        requestedTimeout := fusionTimeout;
      }
    }

    /** `updateExternalStylusState`: new stylus data restarts a queue that waits for it. */
    method UpdateExternalStylusState(state: StylusState)
      requires Valid()
      modifies this
      ensures Valid() && queued == old(queued)
      ensures old(externalStylusId == None && fusionTimeout == None) ==>
                rawStatesPending == old(rawStatesPending) && outbox == old(outbox) && fates == old(fates) && stylus == state
      ensures !old(externalStylusId == None && fusionTimeout == None) && !disabled ==>
                Drained(old(rawStatesPending), old(fates), []) && HeadWaits(false)
    {
      hide InStep, RawPointerData.HasIds, Settled, VisibleOf, AllUsed;
      stylus := state;
      if externalStylusId != None || fusionTimeout != None {
        stylusDataPending := true;
        ProcessRawTouches(false);
      }
    }

    /** The sample `next` comes from the slots: with the ids of the tracking table if every contact is
        tracked, else with the ids of a greedy matching against the sample before it. */
    ghost predicate ComesFrom(next: RawPointerData, sample: RawPointerData, last: RawPointerData)
      reads touch
      requires last.HasIds()
    {
      if touch.havePointerIds then next == sample
      else sample.Sized() && next.SameExceptIds(sample) && exists matches :: PointerIds.IsAssignment(last, sample, next, matches)
    }

    /** `sync`: takes a sample from the slots, gives its pointers ids, queues it and processes the queue. */
    method Sync(when: int, buttonState: set<nat>, buttons: TrackingIds.Buttons, template: RawPointerData)
      returns (ghost next: RawState, ghost sample: RawPointerData)
      requires Valid() && touch.Valid() && template.Sized()
      requires TrackingIds.AllTracked(TrackingIds.Contacts(touch.accumulator.slots[..])) ==>
                 TrackingIds.DistinctContacts(TrackingIds.Contacts(touch.accumulator.slots[..]))
      modifies this, touch, touch.pointerTrackingIdMap, touch.accumulator, touch.accumulator.slots
      ensures Valid() && touch.Valid()
      ensures touch.IsSample(sample, old(TrackingIds.Contacts(touch.accumulator.slots[..])), buttons,
                             old(touch.pointerIdBits), old(touch.pointerTrackingIdMap[..]))
      ensures ComesFrom(next.data, sample, old(LastQueued()))
      ensures next.when == when && next.buttonState == buttonState && next.data.HasIds()
      ensures queued == old(queued) + [VisibleOf(next)]
      ensures !disabled ==> Drained(old(rawStatesPending) + [next], old(fates), []) && HeadWaits(false)
      ensures !disabled ==> lastRaw.when >= old(lastRaw.when)
      ensures !disabled && old(rawStatesPending) == [] ==>
                var waits := externalStylusConnected && !old(stylus).pressed && old(lastRaw).data.pointerCount == 0 && next.data.pointerCount != 0;
                rawStatesPending == if waits then [next] else []
    {
      hide InStep, RawPointerData.HasIds, ComesFrom, RawPointerData.Sized, Settled, VisibleOf, AllUsed, TrackingIds.Contacts,
           TrackingIds.AllTracked, TrackingIds.DistinctContacts, TrackingIds.MultiTouchInputMapper.IsSample,
           TrackingIds.MultiTouchInputMapper.Valid;
      RawsHaveIds();
      var data;
      data, sample := TakeSample(buttons, template);
      next := RawState(when, data, buttonState);
      Push(RawState(when, data, buttonState));
      ProcessRawTouches(false);
    }

    lemma RawsHaveIds()
      requires InStep()
      ensures currentRaw.data.HasIds() && lastRaw.data.HasIds()
    {
      hide Inv, Leads, Known, RawPointerData.HasIds, KeysValid, Remembers;
    }

    method Push(next: RawState)
      requires NothingLost() && next.data.HasIds()
      modifies this`rawStatesPending, this`queued
      ensures NothingLost() && rawStatesPending == old(rawStatesPending) + [next] && queued == old(queued) + [VisibleOf(next)]
    {
      hide RawPointerData.HasIds, Settled, VisibleOf;
      rawStatesPending := rawStatesPending + [next];
      queued := queued + [VisibleOf(next)];
      assert VisibleAll(rawStatesPending) == old(VisibleAll(rawStatesPending)) + [VisibleOf(next)];
    }

    /** The next sample.  Its pointers have ids, each its own, unless two contacts carry the same tracking id. */
    method TakeSample(buttons: TrackingIds.Buttons, template: RawPointerData) returns (data: RawPointerData, ghost sample: RawPointerData)
      requires LastQueued().HasIds() && touch.Valid() && template.Sized()
      modifies touch, touch.pointerTrackingIdMap, touch.accumulator, touch.accumulator.slots
      ensures touch.Valid()
      ensures data.HasIds() <==> old(TrackingIds.AllTracked(TrackingIds.Contacts(touch.accumulator.slots[..])) ==>
                                       TrackingIds.DistinctContacts(TrackingIds.Contacts(touch.accumulator.slots[..])))
      ensures touch.IsSample(sample, old(TrackingIds.Contacts(touch.accumulator.slots[..])), buttons,
                             old(touch.pointerIdBits), old(touch.pointerTrackingIdMap[..]))
      ensures ComesFrom(data, sample, LastQueued())
    {
      hide RawPointerData.HasIds, TrackingIds.Contacts, TrackingIds.AllTracked, TrackingIds.DistinctContacts;
      var last := if rawStatesPending == [] then currentRaw.data else rawStatesPending[|rawStatesPending| - 1].data;
      data := touch.SyncTouch(buttons, template.Clear());
      sample := data;
      if !touch.havePointerIds {
        data := PointerIds.AssignPointerIds(last, data);
      }
    }

    /** The sample that `sync` compares a new one with. */
    ghost function LastQueued(): RawPointerData
      reads this`currentRaw, this`rawStatesPending
    {
      if rawStatesPending == [] then currentRaw.data else rawStatesPending[|rawStatesPending| - 1].data
    }
  }

  lemma OneMoreUsed(states: seq<RawState>, n: nat)
    requires n < |states| && forall i :: 0 <= i < |states| ==> states[i].data.HasIds()
    ensures AllUsed(states[..n + 1]) == AllUsed(states[..n]) + [Used(VisibleOf(states[n]))]
  {
    hide RawPointerData.HasIds, VisibleOf;
  }

  lemma PrefixUsed(before: seq<Fate>, states: seq<RawState>, n: nat)
    requires n <= |states| && forall i :: 0 <= i < |states| ==> states[i].data.HasIds()
    ensures Settled(before) + VisibleAll(states) == Settled(before + AllUsed(states[..n])) + VisibleAll(states[n..])
  {
    hide RawPointerData.HasIds, VisibleOf, Settled;
    MoreFates(before, AllUsed(states[..n]), VisibleAll(states[..n]));
    assert VisibleAll(states) == VisibleAll(states[..n]) + VisibleAll(states[n..]);
  }

  lemma FilledIsCooked(scratch: CookedPointerData, raw: RawPointerData, samples: seq<Sample>, idToIndex: seq<nat>)
    requires scratch.Sized() && raw.HasIds()
    requires |samples| == MAX_POINTERS && |idToIndex| == MAX_POINTER_ID + 1
    requires forall k :: 0 <= k < MAX_POINTERS ==>
               samples[k] == if k < raw.pointerCount then SampleOf(raw.pointers[k]) else scratch.samples[k]
    requires forall k :: 0 <= k < raw.pointerCount ==>
               raw.pointers[k].id <= MAX_POINTER_ID && idToIndex[raw.pointers[k].id] == k
    requires forall id :: 0 <= id <= MAX_POINTER_ID && (forall k :: 0 <= k < raw.pointerCount ==> raw.pointers[k].id != id) ==>
               idToIndex[id] == scratch.idToIndex[id]
    ensures raw.Sized() && samples == Cooked(scratch, raw).samples && idToIndex == Cooked(scratch, raw).idToIndex
  {
    hide RawPointerData.HasIds, RawPointerData.Sized, CookedPointerData.Sized;
    CompleteIsSized(raw);
    SizedIs(scratch, raw);
    IdsAreABijection(raw);
    IndexIsCooked(scratch, raw, idToIndex);
  }

  lemma SizedIs(scratch: CookedPointerData, raw: RawPointerData)
    requires scratch.Sized() && raw.Sized()
    ensures |scratch.samples| == |raw.pointers| == MAX_POINTERS && |scratch.idToIndex| == |raw.idToIndex| == MAX_POINTER_ID + 1
    ensures raw.pointerCount <= MAX_POINTERS
  {
  }

  lemma IndexIsCooked(scratch: CookedPointerData, raw: RawPointerData, idToIndex: seq<nat>)
    requires scratch.Sized() && raw.Sized() && raw.HasIds() && |idToIndex| == MAX_POINTER_ID + 1
    requires forall k :: 0 <= k < raw.pointerCount ==>
               raw.pointers[k].id <= MAX_POINTER_ID && idToIndex[raw.pointers[k].id] == k
    requires forall id :: 0 <= id <= MAX_POINTER_ID && (forall k :: 0 <= k < raw.pointerCount ==> raw.pointers[k].id != id) ==>
               idToIndex[id] == scratch.idToIndex[id]
    ensures idToIndex == Cooked(scratch, raw).idToIndex
  {
    hide RawPointerData.HasIds;
    IdsAreABijection(raw);
    forall id | 0 <= id <= MAX_POINTER_ID
      ensures idToIndex[id] == Cooked(scratch, raw).idToIndex[id]
    {
      if id in raw.touchingIdBits + raw.hoveringIdBits {
        assert raw.pointers[raw.idToIndex[id]].id == id;
      }
    }
  }

  lemma AppendFive(sent: seq<Event>, a: seq<Event>, b: seq<Event>, c: seq<Event>, d: seq<Event>, e: seq<Event>)
    ensures sent + a + b + c + d + e == sent + (a + b + c + d + e)
  {
  }

  lemma AppendThree(sent: seq<Event>, a: seq<Event>, b: seq<Event>, c: seq<Event>)
    ensures sent + a + b + c == sent + (a + b + c)
  {
  }

  lemma AppendOne(sent: seq<Event>, e: Event, rest: seq<Event>)
    ensures sent + [e] + rest == sent + ([e] + rest)
  {
  }

  lemma ActiveAreBelow(data: CookedPointerData, table: CookedPointerData)
    requires data.Valid() && table.Valid()
    ensures Below(data.ActiveIdBits(), MAX_POINTER_ID + 1) && table.Sized()
    ensures data.Ids() != {} ==> data.ActiveIdBits() != {}
  {
  }

  lemma AllAreBelow(data: CookedPointerData)
    requires data.Valid()
    ensures data.Sized() && Below(data.Ids(), MAX_POINTER_ID + 1)
  {
  }

  lemma LooksUp(data: CookedPointerData, id: nat)
    requires data.Sized() && id <= MAX_POINTER_ID
    ensures id < |data.idToIndex| && data.idToIndex[id] < |data.samples| && data.SampleFor(id) == data.samples[data.idToIndex[id]]
  {
  }

  lemma FindsIn(data: CookedPointerData, id: nat)
    requires data.Valid() && id in data.Ids()
    ensures data.Sized() && id < |data.idToIndex| == MAX_POINTER_ID + 1 && data.idToIndex[id] < MAX_POINTERS == |data.samples|
    ensures data.SampleFor(id) == data.samples[data.idToIndex[id]]
  {
  }

  lemma OnlySamplesMove(last: CookedPointerData, current: CookedPointerData, ids: set<nat>)
    requires last.Valid() && current.Valid() && ids <= last.Ids() && ids <= current.Ids()
    ensures WithMoved(last, current, ids) == last.(samples := WithMoved(last, current, ids).samples)
  {
  }

  lemma NothingMoved(last: CookedPointerData, current: CookedPointerData)
    requires last.Valid() && current.Valid()
    ensures WithMoved(last, current, {}) == last
    ensures !AnyMoved(last, current, {})
  {
    assert WithMoved(last, current, {}).samples == last.samples;
  }

  lemma OneMoved(last: CookedPointerData, current: CookedPointerData, done: set<nat>, id: nat, samples: seq<Sample>)
    requires last.Valid() && current.Valid()
    requires done <= last.Ids() && done <= current.Ids() && id in last.Ids() && id in current.Ids() && id !in done
    requires samples == WithMoved(last, current, done).samples
    ensures |samples| == MAX_POINTERS && samples[last.idToIndex[id]] == last.SampleFor(id)
    ensures WithMoved(last, current, done + {id}).samples == samples[last.idToIndex[id] := current.SampleFor(id)]
    ensures AnyMoved(last, current, done + {id}) <==>
              AnyMoved(last, current, done) || samples[last.idToIndex[id]] != current.SampleFor(id)
  {
    assert forall x :: x in done + {id} <==> x in done || x == id;
  }
}
