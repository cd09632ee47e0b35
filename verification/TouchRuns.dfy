/** Direct mode over whole runs: frames, touch cancellations and resets in any order. */
module TouchRuns {
  import opened BitSets
  import opened RawPointers
  import opened TouchStream
  import opened TouchSafety

  // ----- cooking -----

  function SampleOf(p: Pointer): Sample {
    Sample(p.id, p.toolType, p.x, p.y, p.shape)
  }

  /** `cookPointerData` without its geometry: it fills the cells of the current pointers and leaves the
      other cells of the two tables as they were. */
  ghost function Cooked(scratch: CookedPointerData, raw: RawPointerData): CookedPointerData
    requires scratch.Sized() && raw.Sized()
  {
    CookedPointerData(
      raw.pointerCount,
      seq(MAX_POINTERS, i requires 0 <= i < MAX_POINTERS => if i < raw.pointerCount then SampleOf(raw.pointers[i]) else scratch.samples[i]),
      raw.hoveringIdBits, raw.touchingIdBits,
      seq(MAX_POINTER_ID + 1, id requires 0 <= id <= MAX_POINTER_ID =>
        if id in raw.touchingIdBits + raw.hoveringIdBits then raw.idToIndex[id] else scratch.idToIndex[id]))
  }

  lemma CookedIsValid(scratch: CookedPointerData, raw: RawPointerData)
    requires scratch.Sized() && raw.HasIds()
    ensures Cooked(scratch, raw).Valid()
  {
    IdsAreABijection(raw);
  }

  ghost function CookedButtons(raw: RawPointerData, buttons: set<nat>): set<nat> {
    if raw.pointerCount == 0 then {} else buttons
  }

  lemma CopyOfValid(old_: CookedPointerData, other: CookedPointerData)
    requires old_.Sized() && other.Valid()
    ensures old_.CopyFrom(other).Valid()
    ensures old_.CopyFrom(other).touchingIdBits == other.touchingIdBits
    ensures old_.CopyFrom(other).hoveringIdBits == other.hoveringIdBits
    ensures forall id :: id in other.Ids() ==> old_.CopyFrom(other).idToIndex[id] == other.idToIndex[id]
  {
    var copy := old_.CopyFrom(other);
    forall id | id in other.Ids()
      ensures copy.idToIndex[id] == other.idToIndex[id]
    {
      assert other.samples[other.idToIndex[id]].id == id;
    }
  }

  // ----- the state that decides the stream -----

  /** `mLastCookedState`, `mCurrentCookedState`, `mSentHoverEnter` and `mCurrentMotionAborted`. */
  datatype Stream = Stream(last: CookedState, current: CookedState, sentHoverEnter: bool, motionAborted: bool)

  /** Both cooked states describe the same pointers between two frames, under the same indices. */
  ghost predicate Agree(last: CookedPointerData, current: CookedPointerData) {
    && last.Valid() && current.Valid()
    && last.touchingIdBits == current.touchingIdBits && last.hoveringIdBits == current.hoveringIdBits
    && forall id :: id in last.Ids() ==> last.idToIndex[id] == current.idToIndex[id]
  }

  /** A hover-enter is outstanding exactly while pointers hover, none touches, and the motion is not
      aborted. */
  ghost predicate Inv(s: Stream) {
    && Agree(s.last.data, s.current.data)
    && ButtonsHavePointer(s.last)
    && (s.sentHoverEnter <==> !s.motionAborted && Hovers(s.last))
  }

  /** What the listener must know: the last touching set, or nothing once the motion is aborted. */
  ghost function Known(s: Stream): Listener {
    Listener(if s.motionAborted then {} else s.last.data.touchingIdBits, s.sentHoverEnter)
  }

  datatype Input = Frame(raw: RawPointerData, buttons: set<nat>) | CancelTouch | Reset

  ghost predicate WellFormed(input: Input) {
    input.Frame? ==> input.raw.HasIds()
  }

  ghost function CookedFrame(s: Stream, raw: RawPointerData, buttons: set<nat>): CookedState
    requires s.current.data.Sized() && raw.Sized()
  {
    CookedState(Cooked(s.current.data, raw), CookedButtons(raw, buttons))
  }

  lemma FrameIsValid(s: Stream, raw: RawPointerData, buttons: set<nat>)
    requires Inv(s) && raw.HasIds()
    ensures CookedFrame(s, raw, buttons).data.Valid() && ButtonsHavePointer(CookedFrame(s, raw, buttons))
  {
    CookedIsValid(s.current.data, raw);
    IdsAreABijection(raw);
  }

  ghost function Events(s: Stream, input: Input): seq<Event>
    requires Inv(s) && WellFormed(input)
  {
    match input
    case Frame(raw, buttons) =>
      FrameIsValid(s, raw, buttons);
      if s.motionAborted then [] else FrameEvents(s.last, CookedFrame(s, raw, buttons), buttons, s.sentHoverEnter)
    case CancelTouch =>
      if s.current.data.touchingIdBits == {} then []
      else [MotionFor(Plain(Cancel), s.current.data, s.current.data.touchingIdBits, s.current.buttonState)]
    case Reset => [DeviceReset]
  }

  ghost function Next(s: Stream, input: Input): (s': Stream)
    requires Inv(s) && WellFormed(input)
    ensures Inv(s')
  {
    match input
    case Frame(raw, buttons) =>
      FrameIsValid(s, raw, buttons);
      var current := CookedFrame(s, raw, buttons);
      var last := if s.motionAborted then s.last.data else AfterTouches(s.last, current);
      CopyOfValid(last, current.data);
      Stream(CookedState(last.CopyFrom(current.data), current.buttonState), current,
             !s.motionAborted && Hovers(current), s.motionAborted && raw.pointerCount > 0)
    case CancelTouch =>
      s.(motionAborted := s.motionAborted || s.current.data.touchingIdBits != {})
    case Reset =>
      Stream(CookedState(s.last.data.Clear(), {}), CookedState(s.current.data.Clear(), {}), false, false)
  }

  /** One input: all its events are legal, and afterwards the listener knows what it must know. */
  lemma StepIsLegal(s: Stream, input: Input)
    requires Inv(s) && WellFormed(input)
    ensures Leads(Known(s), Events(s, input), Known(Next(s, input)))
  {
    match input
    case Frame(raw, buttons) =>
      FrameIsValid(s, raw, buttons);
      var current := CookedFrame(s, raw, buttons);
      CopyOfValid(if s.motionAborted then s.last.data else AfterTouches(s.last, current), current.data);
      IdsAreABijection(raw);
      if !s.motionAborted {
        FrameIsLegal(s.last, current, buttons);
      }
    case CancelTouch =>
      var ids := s.current.data.touchingIdBits;
      if ids != {} {
        PlainIsLegal(s.current.data, ids, Cancel, s.current.buttonState, Known(s), Known(Next(s, input)));
      }
    case Reset =>
      OneEvent(Known(s), DeviceReset, Listener({}, false));
  }

  /** One more input for a listener that has heard all events so far. */
  lemma StepGoesOn(s: Stream, input: Input, before: seq<Event>)
    requires Inv(s) && WellFormed(input) && Leads(Listener({}, false), before, Known(s))
    ensures Inv(Next(s, input)) && Leads(Listener({}, false), before + Events(s, input), Known(Next(s, input)))
  {
    hide Inv, Leads, Known, Events, WellFormed;
    StepIsLegal(s, input);
    LeadsConcat(Listener({}, false), before, Known(s), Events(s, input), Known(Next(s, input)));
  }

  ghost function Run(s: Stream, inputs: seq<Input>): (Stream, seq<Event>)
    requires Inv(s) && forall i :: 0 <= i < |inputs| ==> WellFormed(inputs[i])
    decreases |inputs|
  {
    if inputs == [] then (s, [])
    else
      var (s', events) := Run(Next(s, inputs[0]), inputs[1..]);
      (s', Events(s, inputs[0]) + events)
  }

  /** Over every run of frames, cancellations and resets the stream is well formed: a listener that
      replays it always holds the mapper's own touching set and hover state. */
  lemma {:induction false} RunIsLegal(s: Stream, inputs: seq<Input>)
    requires Inv(s) && forall i :: 0 <= i < |inputs| ==> WellFormed(inputs[i])
    ensures Inv(Run(s, inputs).0)
    ensures Leads(Known(s), Run(s, inputs).1, Known(Run(s, inputs).0))
    decreases |inputs|
  {
    if inputs != [] {
      var s1 := Next(s, inputs[0]);
      StepIsLegal(s, inputs[0]);
      RunIsLegal(s1, inputs[1..]);
      LeadsConcat(Known(s), Events(s, inputs[0]), Known(s1), Run(s1, inputs[1..]).1, Known(Run(s, inputs).0));
    }
  }

  /** What a legal stream means: at any point of a run the listener never hovers and touches at once. */
  lemma {:induction false} NeverHoversWhileTouching(l: Listener, events: seq<Event>, n: nat)
    requires AllLegal(l, events) && n <= |events|
    requires l.hovering ==> l.touching == {}
    ensures Replay(l, events[..n]).hovering ==> Replay(l, events[..n]).touching == {}
    decreases n
  {
    if n > 0 {
      NeverHoversWhileTouching(Hear(l, events[0]), events[1..], n - 1);
      assert events[..n][0] == events[0] && events[..n][1..] == events[1..][..n - 1];
    }
  }

  /** After any run that ends with no pointer, every pointer and every hover the listener was told of has
      been taken back. */
  lemma NothingIsLeftDown(s: Stream, inputs: seq<Input>)
    requires Inv(s) && forall i :: 0 <= i < |inputs| ==> WellFormed(inputs[i])
    requires Run(s, inputs).0.last.data.pointerCount == 0
    ensures Replay(Known(s), Run(s, inputs).1) == Listener({}, false)
  {
    RunIsLegal(s, inputs);
  }

  // ----- which samples the events carry -----

  /** Each id of the event comes with its own sample. */
  ghost predicate Faithful(e: Event) {
    e.Motion? ==> |e.samples| == |e.ids| && forall k :: 0 <= k < |e.ids| ==> e.samples[k].id == e.ids[k]
  }

  ghost predicate AllFaithful(events: seq<Event>) {
    forall e :: e in events ==> Faithful(e)
  }

  ghost predicate FindsAll(data: CookedPointerData, ids: set<nat>)
    requires data.Sized() && Below(ids, MAX_POINTER_ID + 1)
  {
    forall id :: id in ids ==> data.SampleFor(id).id == id
  }

  lemma FaithfulIffFound(request: Request, data: CookedPointerData, ids: set<nat>, buttons: set<nat>)
    requires CanDispatch(request, data, ids)
    ensures Faithful(MotionFor(request, data, ids, buttons)) <==> FindsAll(data, ids)
  {
    var order := Ascending(ids);
    var e := MotionFor(request, data, ids, buttons);
    if Faithful(e) {
      forall id | id in ids
        ensures data.SampleFor(id).id == id
      {
        var k :| 0 <= k < |order| && order[k] == id;
        assert e.samples[k].id == e.ids[k];
      }
    }
  }

  lemma {:induction false} UpsFaithful(data: CookedPointerData, up: set<nat>, dispatched: set<nat>, buttons: set<nat>)
    requires data.Valid() && up <= dispatched <= data.Ids()
    ensures AllFaithful(UpEvents(data, up, dispatched, buttons))
    decreases |up|
  {
    if up != {} {
      var id := FirstMarked(up);
      FaithfulIffFound(OneUp(id), data, dispatched, buttons);
      UpsFaithful(data, up - {id}, dispatched - {id}, buttons);
    }
  }

  lemma {:induction false} DownsFaithful(data: CookedPointerData, down: set<nat>, dispatched: set<nat>, buttons: set<nat>)
    requires data.Valid() && down + dispatched <= data.Ids()
    ensures AllFaithful(DownEvents(data, down, dispatched, buttons))
    decreases |down|
  {
    if down != {} {
      var id := FirstMarked(down);
      FaithfulIffFound(OneDown(id), data, dispatched + {id}, buttons);
      DownsFaithful(data, down - {id}, dispatched + {id}, buttons);
    }
  }

  lemma {:induction false} PressesFaithful(data: CookedPointerData, ids: set<nat>, pressed: set<nat>, buttons: set<nat>)
    requires data.Valid() && ids <= data.Ids()
    ensures AllFaithful(PressEvents(data, ids, pressed, buttons))
    decreases |pressed|
  {
    if pressed != {} {
      var b := FirstMarked(pressed);
      FaithfulIffFound(Plain(ButtonPress(b)), data, ids, buttons + {b});
      PressesFaithful(data, ids, pressed - {b}, buttons + {b});
    }
  }

  lemma {:induction false} ReleasesFaithful(data: CookedPointerData, ids: set<nat>, released: set<nat>, buttons: set<nat>)
    requires data.Sized() && Below(ids, MAX_POINTER_ID + 1)
    ensures AllFaithful(ReleaseEvents(data, ids, released, buttons)) <==> released == {} || FindsAll(data, ids)
    decreases |released|
  {
    if released != {} {
      var b := FirstMarked(released);
      var e := MotionFor(Plain(ButtonRelease(b)), data, ids, buttons - {b});
      var rest := ReleaseEvents(data, ids, released - {b}, buttons - {b});
      FaithfulIffFound(Plain(ButtonRelease(b)), data, ids, buttons - {b});
      ReleasesFaithful(data, ids, released - {b}, buttons - {b});
      assert ReleaseEvents(data, ids, released, buttons) == [e] + rest;
      assert e in [e] + rest && forall x :: x in [e] + rest <==> x == e || x in rest;
    }
  }

  lemma MovedIsValid(last: CookedPointerData, current: CookedPointerData, ids: set<nat>)
    requires last.Valid() && current.Valid() && ids <= last.Ids() && ids <= current.Ids()
    ensures WithMoved(last, current, ids).Valid()
    ensures forall id :: id in ids ==> WithMoved(last, current, ids).SampleFor(id) == current.SampleFor(id)
    ensures forall id :: id in last.Ids() - ids ==> WithMoved(last, current, ids).SampleFor(id) == last.SampleFor(id)
  {
  }

  lemma FaithfulConcat(a: seq<Event>, b: seq<Event>)
    ensures AllFaithful(a + b) <==> AllFaithful(a) && AllFaithful(b)
  {
    assert forall e :: e in a + b <==> e in a || e in b;
  }

  lemma TouchesFaithful(last: CookedState, current: CookedState)
    requires last.data.Valid() && current.data.Valid()
    ensures AllFaithful(TouchEvents(last, current))
  {
    var lastIds, currentIds := last.data.touchingIdBits, current.data.touchingIdBits;
    var moveIds, buttons := lastIds * currentIds, current.buttonState;
    FaithfulIffFound(Plain(Move), current.data, moveIds, buttons);
    if currentIds == lastIds {
      assert moveIds == currentIds;
    } else {
      var moved := WithMoved(last.data, current.data, moveIds);
      MovedIsValid(last.data, current.data, moveIds);
      var ups := UpEvents(moved, lastIds - currentIds, lastIds, buttons);
      UpsFaithful(moved, lastIds - currentIds, lastIds, buttons);
      var move := if MoveNeeded(last, current) && moveIds != {} then [MotionFor(Plain(Move), current.data, moveIds, buttons)] else [];
      DownsFaithful(current.data, currentIds - lastIds, moveIds, buttons);
      FaithfulConcat(ups, move);
      FaithfulConcat(ups + move, DownEvents(current.data, currentIds - lastIds, moveIds, buttons));
    }
  }

  lemma HoversFaithful(last: CookedState, current: CookedState, rawButtons: set<nat>, sent: bool, still: bool)
    requires last.data.Valid() && current.data.Valid()
    ensures AllFaithful(HoverExitEvents(last, current, sent)) && AllFaithful(HoverEvents(current, rawButtons, still))
  {
    FaithfulIffFound(Plain(HoverExit), last.data, last.data.hoveringIdBits, last.buttonState);
    FaithfulIffFound(Plain(HoverEnter), current.data, current.data.hoveringIdBits, rawButtons);
    FaithfulIffFound(Plain(HoverMove), current.data, current.data.hoveringIdBits, rawButtons);
  }

  /** Looking up a pointer of the last sample in the tables of the current one finds it when it is still
      there, or when its old cell was not needed for a current pointer. */
  lemma StaleLookup(s: Stream, raw: RawPointerData, id: nat)
    requires Inv(s) && raw.HasIds() && id in s.last.data.Ids()
    ensures Cooked(s.current.data, raw).SampleFor(id).id == id <==> StillFound(s.last.data, raw, id)
  {
    IdsAreABijection(raw);
    var k := s.last.data.idToIndex[id];
    assert s.current.data.samples[k].id == id;
    if id !in raw.touchingIdBits + raw.hoveringIdBits && k < raw.pointerCount {
      assert raw.pointers[k].id in raw.touchingIdBits + raw.hoveringIdBits;
    }
  }

  lemma FrameEventsFaithful(last: CookedState, current: CookedState, rawButtons: set<nat>, sent: bool)
    requires last.data.Valid() && current.data.Valid()
    ensures AllFaithful(FrameEvents(last, current, rawButtons, sent)) <==>
              last.buttonState - current.buttonState == {} || FindsAll(current.data, last.data.ActiveIdBits())
  {
    var still := sent && !HoverEnds(current.data);
    var e0, e1 := ButtonReleaseEvents(last, current), HoverExitEvents(last, current, sent);
    var e2, e3, e4 := TouchEvents(last, current), HoverEvents(current, rawButtons, still), ButtonPressEvents(last, current);
    ReleasesFaithful(current.data, last.data.ActiveIdBits(), last.buttonState - current.buttonState, last.buttonState);
    TouchesFaithful(last, current);
    HoversFaithful(last, current, rawButtons, sent, still);
    PressesFaithful(current.data, current.data.ActiveIdBits(), current.buttonState - last.buttonState, last.buttonState);
    FaithfulConcat(e0, e1);
    FaithfulConcat(e0 + e1, e2);
    FaithfulConcat(e0 + e1 + e2, e3);
    FaithfulConcat(e0 + e1 + e2 + e3, e4);
  }

  /** The pointer is in the new sample, or its old cell is past the new pointers. */
  ghost predicate StillFound(last: CookedPointerData, raw: RawPointerData, id: nat)
    requires last.Sized() && id <= MAX_POINTER_ID
  {
    id in raw.touchingIdBits + raw.hoveringIdBits || last.idToIndex[id] >= raw.pointerCount
  }

  /** A button release names the pointers of the last sample but looks them up in the current tables.
      All events of a frame carry the samples of their own pointers exactly when no button is released,
      or every pointer the release names is still present or left a cell that no current pointer took. */
  lemma FrameIsFaithfulIff(s: Stream, raw: RawPointerData, buttons: set<nat>)
    requires Inv(s) && raw.HasIds() && !s.motionAborted
    ensures AllFaithful(Events(s, Frame(raw, buttons))) <==>
              || s.last.buttonState - CookedButtons(raw, buttons) == {}
              || forall id :: id in s.last.data.ActiveIdBits() ==> StillFound(s.last.data, raw, id)
  {
    FrameIsValid(s, raw, buttons);
    var current := CookedFrame(s, raw, buttons);
    FrameEventsFaithful(s.last, current, buttons, s.sentHoverEnter);
    AllStillFound(s, raw);
  }

  lemma AllStillFound(s: Stream, raw: RawPointerData)
    requires Inv(s) && raw.HasIds()
    ensures FindsAll(Cooked(s.current.data, raw), s.last.data.ActiveIdBits()) <==>
              forall id :: id in s.last.data.ActiveIdBits() ==> StillFound(s.last.data, raw, id)
  {
    var data := Cooked(s.current.data, raw);
    forall id | id in s.last.data.ActiveIdBits()
      ensures data.SampleFor(id).id == id <==> StillFound(s.last.data, raw, id)
    {
      StaleLookup(s, raw, id);
    }
  }

  // ----- which buttons the events report -----

  lemma {:induction false} PressesEndWith(data: CookedPointerData, ids: set<nat>, pressed: set<nat>, buttons: set<nat>)
    requires data.Sized() && Below(ids, MAX_POINTER_ID + 1) && pressed != {}
    ensures var events := PressEvents(data, ids, pressed, buttons);
            events != [] && events[|events| - 1].Motion? && events[|events| - 1].buttonState == buttons + pressed
    decreases |pressed|
  {
    var b := FirstMarked(pressed);
    if pressed - {b} != {} {
      PressesEndWith(data, ids, pressed - {b}, buttons + {b});
      assert buttons + {b} + (pressed - {b}) == buttons + pressed;
    } else {
      assert buttons + {b} == buttons + pressed;
    }
  }

  /** The last button event of a frame with presses reports the current buttons exactly when no button
      was released in the same frame: the presses start from the last button state. */
  lemma PressesReportCurrentIff(last: CookedState, current: CookedState)
    requires last.data.Valid() && current.data.Valid()
    requires current.buttonState - last.buttonState != {}
    ensures var events := ButtonPressEvents(last, current);
            events != [] && events[|events| - 1].Motion? &&
            (events[|events| - 1].buttonState == current.buttonState <==> last.buttonState <= current.buttonState)
  {
    var pressed := current.buttonState - last.buttonState;
    PressesEndWith(current.data, current.data.ActiveIdBits(), pressed, last.buttonState);
    assert last.buttonState <= last.buttonState + pressed;
    if last.buttonState <= current.buttonState {
      assert last.buttonState + pressed == current.buttonState;
    }
  }

  // ----- the parts of a step -----

  lemma ScratchIsSized(s: Stream, raw: RawPointerData)
    requires Inv(s) && raw.Sized()
    ensures s.current.data.Sized() && s.current.data.Clear().Sized()
    ensures Cooked(s.current.data.Clear(), raw) == Cooked(s.current.data, raw)
    ensures Cooked(s.current.data, raw).pointerCount == raw.pointerCount
  {
  }

  /** The moved samples change neither the ids, the buttons, nor what the later dispatchers look at. */
  lemma AfterTouchesIsValid(last: CookedState, current: CookedState)
    requires last.data.Valid() && current.data.Valid()
    ensures AfterTouches(last, current).Valid()
    ensures ButtonPressEvents(last.(data := AfterTouches(last, current)), current) == ButtonPressEvents(last, current)
  {
    MovedIsValid(last.data, current.data, last.data.touchingIdBits * current.data.touchingIdBits);
  }

  lemma ResetStep(s: Stream)
    requires Inv(s)
    ensures Events(s, Reset) == [DeviceReset]
    ensures Next(s, Reset) == Stream(CookedState(s.last.data.Clear(), {}), CookedState(s.current.data.Clear(), {}), false, false)
  {
  }

  lemma CancelStep(s: Stream)
    requires Inv(s)
    ensures CanDispatch(Plain(Cancel), s.current.data, s.current.data.touchingIdBits)
    ensures Events(s, CancelTouch) == if s.current.data.touchingIdBits == {} then []
                                      else [MotionFor(Plain(Cancel), s.current.data, s.current.data.touchingIdBits, s.current.buttonState)]
    ensures Next(s, CancelTouch) == s.(motionAborted := s.motionAborted || s.current.data.touchingIdBits != {})
  {
  }

  /** What a frame does to the stream, and what its parts need. */
  lemma FrameStep(s: Stream, raw: RawPointerData, buttons: set<nat>)
    requires Inv(s) && raw.HasIds()
    ensures raw.Sized() && s.current.data.Sized() && s.current.data.Clear().Sized()
    ensures Cooked(s.current.data.Clear(), raw) == Cooked(s.current.data, raw)
    ensures var current := CookedFrame(s, raw, buttons);
            && current.data.Valid() && ButtonsHavePointer(current) && current.data.pointerCount == raw.pointerCount
            && s.last.data.Valid() && ButtonsHavePointer(s.last) && (s.sentHoverEnter <==> !s.motionAborted && Hovers(s.last))
            && Events(s, Frame(raw, buttons)) == (if s.motionAborted then [] else FrameEvents(s.last, current, buttons, s.sentHoverEnter))
            && var last := if s.motionAborted then s.last.data else AfterTouches(s.last, current);
               && last.Sized() && current.data.Sized()
               && Next(s, Frame(raw, buttons)) == Stream(CookedState(last.CopyFrom(current.data), current.buttonState), current,
                                                         !s.motionAborted && Hovers(current), s.motionAborted && raw.pointerCount > 0)
  {
    hide FrameEvents, RawPointerData.HasIds;
    CompleteIsSized(raw);
    ScratchIsSized(s, raw);
    FrameIsValid(s, raw, buttons);
    if !s.motionAborted {
      AfterTouchesIsValid(s.last, CookedFrame(s, raw, buttons));
    }
  }
}
