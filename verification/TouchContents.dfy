/** Direct mode: what a listener remembers of the events is what the panel shows. */
module TouchContents {
  import opened BitSets
  import opened RawPointers
  import opened TouchStream
  import opened TouchSafety
  import opened TouchRuns

  // ----- what a listener remembers -----

  /** The last sample of each pointer that touches or hovers, and the buttons that are pressed. */
  datatype Memory = Memory(touching: map<nat, Sample>, hovering: map<nat, Sample>, buttons: set<nat>)

  const BLANK: Memory := Memory(map[], map[], {})

  ghost function Pairs(ids: seq<nat>, samples: seq<Sample>): map<nat, Sample> {
    if |ids| != |samples| then map[] else map id | id in ids :: samples[IndexIn(ids, id)]
  }

  ghost function Remember(m: Memory, e: Event): Memory {
    match e
    case DeviceReset => BLANK
    case Motion(action, ids, samples, _) =>
      match action
      case Down => m.(touching := Pairs(ids, samples))
      case PointerDown(_) => m.(touching := Pairs(ids, samples))
      case Move => m.(touching := Pairs(ids, samples))
      case Up => m.(touching := m.touching - Elements(ids))
      case PointerUp(i) => if i < |ids| then m.(touching := m.touching - {ids[i]}) else m
      case Cancel => BLANK
      case HoverEnter => m.(hovering := Pairs(ids, samples))
      case HoverMove => m.(hovering := Pairs(ids, samples))
      case HoverExit => m.(hovering := map[])
      case ButtonPress(b) => m.(buttons := m.buttons + {b})
      case ButtonRelease(b) => m.(buttons := m.buttons - {b})
  }

  ghost function RememberAll(m: Memory, events: seq<Event>): Memory
    decreases |events|
  {
    if events == [] then m else RememberAll(Remember(m, events[0]), events[1..])
  }

  lemma {:induction false} RememberConcat(m: Memory, first: seq<Event>, second: seq<Event>)
    ensures RememberAll(m, first + second) == RememberAll(RememberAll(m, first), second)
    decreases |first|
  {
    if first == [] {
      assert first + second == second;
    } else {
      RememberConcat(Remember(m, first[0]), first[1..], second);
      assert (first + second)[1..] == first[1..] + second;
    }
  }

  lemma RememberOne(m: Memory, e: Event)
    ensures RememberAll(m, [e]) == Remember(m, e)
  {
    assert [e][1..] == [];
  }

  // ----- what the panel shows -----

  /** The pointers as the last frame has them, the buttons, and whether the touches have been cancelled and some
      of them may still be there. */
  datatype Shown = Shown(touching: map<nat, Sample>, hovering: map<nat, Sample>, buttons: set<nat>, cancelled: bool)

  ghost function PointersOf(raw: RawPointerData, ids: set<nat>): map<nat, Sample>
    requires raw.HasIds() && ids <= raw.touchingIdBits + raw.hoveringIdBits
  {
    IdsAreABijection(raw);
    map id | id in ids :: var p := raw.pointers[raw.idToIndex[id]]; Sample(id, p.toolType, p.x, p.y, p.shape)
  }

  ghost function Show(t: Shown, input: Input): Shown
    requires WellFormed(input)
  {
    match input
    case Frame(raw, buttons) =>
      Shown(PointersOf(raw, raw.touchingIdBits), PointersOf(raw, raw.hoveringIdBits),
            if raw.touchingIdBits + raw.hoveringIdBits == {} then {} else buttons,
            t.cancelled && raw.touchingIdBits + raw.hoveringIdBits != {})
    case CancelTouch => t.(cancelled := t.cancelled || t.touching != map[])
    case Reset => Shown(map[], map[], {}, false)
  }

  ghost function ShowAll(t: Shown, inputs: seq<Input>): Shown
    requires forall i :: 0 <= i < |inputs| ==> WellFormed(inputs[i])
    decreases |inputs|
  {
    if inputs == [] then t else ShowAll(Show(t, inputs[0]), inputs[1..])
  }

  /** What a listener is to know: nothing of touches that were cancelled, and no hovering while something
      touches. */
  ghost function ToldOf(t: Shown): Memory {
    if t.cancelled then BLANK
    else Memory(t.touching, if t.touching == map[] then t.hovering else map[], t.buttons)
  }

  // ----- events and tables -----

  ghost function SamplesIn(data: CookedPointerData, ids: set<nat>): map<nat, Sample>
    requires data.Sized() && Below(ids, MAX_POINTER_ID + 1)
  {
    map id | id in ids :: data.SampleFor(id)
  }

  lemma PairsAre(data: CookedPointerData, ids: set<nat>)
    requires data.Sized() && Below(ids, MAX_POINTER_ID + 1)
    ensures forall k :: 0 <= k < |Ascending(ids)| ==> Ascending(ids)[k] <= MAX_POINTER_ID
    ensures Pairs(Ascending(ids), SamplesFor(data, Ascending(ids))) == SamplesIn(data, ids)
    ensures Elements(Ascending(ids)) == ids
  {
    AscendingLists(ids);
    var order := Ascending(ids);
    assert forall k :: 0 <= k < |order| ==> order[k] in ids;
  }

  lemma UpRemembered(data: CookedPointerData, ids: set<nat>, id: nat, buttons: set<nat>, m: Memory)
    requires data.Sized() && Below(ids, MAX_POINTER_ID + 1) && id in ids && m.touching.Keys <= ids
    ensures RememberAll(m, [MotionFor(OneUp(id), data, ids, buttons)]) == m.(touching := m.touching - {id})
  {
    PairsAre(data, ids);
    AscendingLists(ids);
    RememberOne(m, MotionFor(OneUp(id), data, ids, buttons));
    if |Ascending(ids)| == 1 {
      assert ids == {id};
    }
  }

  lemma DownRemembered(data: CookedPointerData, ids: set<nat>, id: nat, buttons: set<nat>, m: Memory)
    requires data.Sized() && Below(ids, MAX_POINTER_ID + 1) && id in ids
    ensures RememberAll(m, [MotionFor(OneDown(id), data, ids, buttons)]) == m.(touching := SamplesIn(data, ids))
  {
    PairsAre(data, ids);
    RememberOne(m, MotionFor(OneDown(id), data, ids, buttons));
  }

  lemma PlainRemembered(data: CookedPointerData, ids: set<nat>, action: Action, buttons: set<nat>, m: Memory)
    requires CanDispatch(Plain(action), data, ids)
    ensures var m' := RememberAll(m, [MotionFor(Plain(action), data, ids, buttons)]);
            match action
            case Move => m' == m.(touching := SamplesIn(data, ids))
            case Cancel => m' == BLANK
            case HoverEnter => m' == m.(hovering := SamplesIn(data, ids))
            case HoverMove => m' == m.(hovering := SamplesIn(data, ids))
            case HoverExit => m' == m.(hovering := map[])
            case ButtonPress(b) => m' == m.(buttons := m.buttons + {b})
            case ButtonRelease(b) => m' == m.(buttons := m.buttons - {b})
            case _ => true
  {
    PairsAre(data, ids);
    RememberOne(m, MotionFor(Plain(action), data, ids, buttons));
  }

  lemma {:induction false} UpsRemembered(data: CookedPointerData, up: set<nat>, dispatched: set<nat>, buttons: set<nat>, m: Memory)
    requires data.Sized() && up <= dispatched && Below(dispatched, MAX_POINTER_ID + 1) && m.touching.Keys <= dispatched
    ensures RememberAll(m, UpEvents(data, up, dispatched, buttons)) == m.(touching := m.touching - up)
    decreases |up|
  {
    hide MotionFor, Remember;
    if up == {} {
      assert m.touching - up == m.touching;
    } else {
      var id := FirstMarked(up);
      var m' := m.(touching := m.touching - {id});
      UpRemembered(data, dispatched, id, buttons, m);
      UpsRemembered(data, up - {id}, dispatched - {id}, buttons, m');
      RememberConcat(m, [MotionFor(OneUp(id), data, dispatched, buttons)], UpEvents(data, up - {id}, dispatched - {id}, buttons));
      assert m'.touching - (up - {id}) == m.touching - up;
    }
  }

  lemma {:induction false} DownsRemembered(data: CookedPointerData, down: set<nat>, dispatched: set<nat>, buttons: set<nat>, m: Memory)
    requires data.Sized() && Below(down + dispatched, MAX_POINTER_ID + 1)
    ensures RememberAll(m, DownEvents(data, down, dispatched, buttons))
         == if down == {} then m else m.(touching := SamplesIn(data, down + dispatched))
    decreases |down|
  {
    hide MotionFor, Remember;
    if down != {} {
      var id := FirstMarked(down);
      var m' := m.(touching := SamplesIn(data, dispatched + {id}));
      DownRemembered(data, dispatched + {id}, id, buttons, m);
      DownsRemembered(data, down - {id}, dispatched + {id}, buttons, m');
      RememberConcat(m, [MotionFor(OneDown(id), data, dispatched + {id}, buttons)], DownEvents(data, down - {id}, dispatched + {id}, buttons));
      assert down - {id} + (dispatched + {id}) == down + dispatched;
      assert down - {id} == {} ==> dispatched + {id} == down + dispatched;
    }
  }

  lemma {:induction false} ReleasesRemembered(data: CookedPointerData, ids: set<nat>, released: set<nat>, buttons: set<nat>, m: Memory)
    requires data.Sized() && Below(ids, MAX_POINTER_ID + 1)
    ensures RememberAll(m, ReleaseEvents(data, ids, released, buttons)) == m.(buttons := m.buttons - released)
    decreases |released|
  {
    hide MotionFor, Remember;
    if released == {} {
      assert m.buttons - released == m.buttons;
    } else {
      var b := FirstMarked(released);
      var m' := m.(buttons := m.buttons - {b});
      PlainRemembered(data, ids, ButtonRelease(b), buttons - {b}, m);
      ReleasesRemembered(data, ids, released - {b}, buttons - {b}, m');
      RememberConcat(m, [MotionFor(Plain(ButtonRelease(b)), data, ids, buttons - {b})],
                     ReleaseEvents(data, ids, released - {b}, buttons - {b}));
      assert m'.buttons - (released - {b}) == m.buttons - released;
    }
  }

  lemma {:induction false} PressesRemembered(data: CookedPointerData, ids: set<nat>, pressed: set<nat>, buttons: set<nat>, m: Memory)
    requires data.Sized() && Below(ids, MAX_POINTER_ID + 1)
    ensures RememberAll(m, PressEvents(data, ids, pressed, buttons)) == m.(buttons := m.buttons + pressed)
    decreases |pressed|
  {
    hide MotionFor, Remember;
    if pressed == {} {
      assert m.buttons + pressed == m.buttons;
    } else {
      var b := FirstMarked(pressed);
      var m' := m.(buttons := m.buttons + {b});
      PlainRemembered(data, ids, ButtonPress(b), buttons + {b}, m);
      PressesRemembered(data, ids, pressed - {b}, buttons + {b}, m');
      RememberConcat(m, [MotionFor(Plain(ButtonPress(b)), data, ids, buttons + {b})],
                     PressEvents(data, ids, pressed - {b}, buttons + {b}));
      assert m'.buttons + (pressed - {b}) == m.buttons + pressed;
    }
  }

  // ----- one frame -----

  lemma SamplesStay(last: CookedPointerData, current: CookedPointerData, ids: set<nat>)
    requires last.Sized() && current.Sized() && Below(ids, MAX_POINTER_ID + 1) && !AnyMoved(last, current, ids)
    ensures SamplesIn(last, ids) == SamplesIn(current, ids)
  {
  }

  /** The listener's samples are brought up to date, whichever way the touching pointers change. */
  lemma TouchesRemembered(last: CookedState, current: CookedState, m: Memory)
    requires last.data.Valid() && current.data.Valid()
    requires last.data.Sized() && current.data.Sized() && Below(last.data.touchingIdBits + current.data.touchingIdBits, MAX_POINTER_ID + 1)
    requires m.touching == SamplesIn(last.data, last.data.touchingIdBits)
    ensures RememberAll(m, TouchEvents(last, current)) == m.(touching := SamplesIn(current.data, current.data.touchingIdBits))
  {
    hide CookedPointerData.Valid, CookedPointerData.Sized, MotionFor, AnyMoved, WithMoved, AfterTouches, UpEvents, DownEvents, Remember;
    var lastIds, ids := last.data.touchingIdBits, current.data.touchingIdBits;
    var moveIds, buttons := lastIds * ids, current.buttonState;
    if lastIds == ids {
      if ids != {} {
        PlainRemembered(current.data, ids, Move, buttons, m);
      } else {
        assert SamplesIn(current.data, ids) == map[] == m.touching;
      }
    } else {
      TouchParts(last, current);
      var moved := WithMoved(last.data, current.data, moveIds);
      var ups := UpEvents(moved, lastIds - ids, lastIds, buttons);
      var needed := AnyMoved(last.data, current.data, moveIds) || buttons != last.buttonState;
      var move := if needed && moveIds != {} then [MotionFor(Plain(Move), current.data, moveIds, buttons)] else [];
      var downs := DownEvents(current.data, ids - lastIds, moveIds, buttons);
      var m1 := m.(touching := m.touching - (lastIds - ids));
      var m2 := m.(touching := SamplesIn(current.data, moveIds));
      UpsRemembered(moved, lastIds - ids, lastIds, buttons, m);
      assert m1.touching == SamplesIn(last.data, moveIds);
      if needed && moveIds != {} {
        PlainRemembered(current.data, moveIds, Move, buttons, m1);
      } else if moveIds != {} {
        SamplesStay(last.data, current.data, moveIds);
      }
      assert RememberAll(m1, move) == m2;
      DownsRemembered(current.data, ids - lastIds, moveIds, buttons, m2);
      assert ids - lastIds + moveIds == ids;
      RememberConcat(m, ups, move);
      RememberConcat(m, ups + move, downs);
    }
  }

  /** What a listener remembers that knows this state. */
  ghost function MemoryOf(state: CookedState): Memory
    requires state.data.Sized()
  {
    Memory(SamplesIn(state.data, state.data.touchingIdBits),
           if Hovers(state) then SamplesIn(state.data, state.data.hoveringIdBits) else map[], state.buttonState)
  }

  lemma HoverExitRemembered(last: CookedState, current: CookedState, m: Memory)
    requires last.data.Valid() && (!Hovers(last) ==> m.hovering == map[])
    ensures RememberAll(m, HoverExitEvents(last, current, Hovers(last))) == m.(hovering := if Hovers(current) then m.hovering else map[])
  {
    if Hovers(last) && !Hovers(current) {
      PlainRemembered(last.data, last.data.hoveringIdBits, HoverExit, last.buttonState, m);
    }
  }

  lemma HoverRemembered(current: CookedState, rawButtons: set<nat>, m: Memory, still: bool)
    requires current.data.Valid() && current.data.Sized() && (!Hovers(current) ==> m.hovering == map[])
    ensures RememberAll(m, HoverEvents(current, rawButtons, still))
         == m.(hovering := if Hovers(current) then SamplesIn(current.data, current.data.hoveringIdBits) else map[])
  {
    hide MotionFor, Remember;
    if Hovers(current) {
      var ids := current.data.hoveringIdBits;
      var enter := if still then [] else [MotionFor(Plain(HoverEnter), current.data, ids, rawButtons)];
      PlainRemembered(current.data, ids, HoverEnter, rawButtons, m);
      PlainRemembered(current.data, ids, HoverMove, rawButtons, m);
      PlainRemembered(current.data, ids, HoverMove, rawButtons, m.(hovering := SamplesIn(current.data, ids)));
      RememberConcat(m, enter, [MotionFor(Plain(HoverMove), current.data, ids, rawButtons)]);
    }
  }

  /** One frame that is not aborted brings the listener from the last state to the current one. */
  lemma FrameRemembered(last: CookedState, current: CookedState, rawButtons: set<nat>)
    requires last.data.Valid() && current.data.Valid() && last.data.Sized() && current.data.Sized()
    ensures RememberAll(MemoryOf(last), FrameEvents(last, current, rawButtons, Hovers(last))) == MemoryOf(current)
  {
    hide Remember, MotionFor, TouchEvents, ReleaseEvents, PressEvents, HoverExitEvents, HoverEvents, CookedPointerData.Valid;
    var m, still := MemoryOf(last), Hovers(last) && Hovers(current);
    var e0, e1 := ButtonReleaseEvents(last, current), HoverExitEvents(last, current, Hovers(last));
    var e2, e3, e4 := TouchEvents(last, current), HoverEvents(current, rawButtons, still), ButtonPressEvents(last, current);
    var released, pressed := last.buttonState - current.buttonState, current.buttonState - last.buttonState;
    AllIdsBelow(last.data);
    AllIdsBelow(current.data);
    ReleasesRemembered(current.data, last.data.ActiveIdBits(), released, last.buttonState, m);
    var m0 := m.(buttons := m.buttons - released);
    HoverExitRemembered(last, current, m0);
    var m1 := m0.(hovering := if Hovers(current) then m0.hovering else map[]);
    TouchesRemembered(last, current, m1);
    var m2 := m1.(touching := SamplesIn(current.data, current.data.touchingIdBits));
    HoverRemembered(current, rawButtons, m2, still);
    var m3 := RememberAll(m2, e3);
    PressesRemembered(current.data, current.data.ActiveIdBits(), pressed, last.buttonState, m3);
    assert last.buttonState - released + pressed == current.buttonState;
    RememberConcat(m, e0, e1);
    RememberConcat(m, e0 + e1, e2);
    RememberConcat(m, e0 + e1 + e2, e3);
    RememberConcat(m, e0 + e1 + e2 + e3, e4);
  }

  lemma AllIdsBelow(data: CookedPointerData)
    requires data.Valid()
    ensures data.Sized() && Below(data.touchingIdBits + data.hoveringIdBits, MAX_POINTER_ID + 1) && Below(data.ActiveIdBits(), MAX_POINTER_ID + 1)
  {
  }

  // ----- runs -----

  /** What the listener remembers between two inputs. */
  ghost function Remembered(s: Stream): Memory
    requires Inv(s)
  {
    AllIdsBelow(s.last.data);
    if s.motionAborted then BLANK else MemoryOf(s.last)
  }

  lemma StepRemembered(s: Stream, input: Input)
    requires Inv(s) && WellFormed(input)
    ensures Inv(Next(s, input)) && RememberAll(Remembered(s), Events(s, input)) == Remembered(Next(s, input))
  {
    match input
    case Frame(raw, buttons) => FrameStepRemembered(s, raw, buttons);
    case CancelTouch =>
      hide MotionFor, Remember;
      var ids := s.current.data.touchingIdBits;
      if ids != {} {
        PlainRemembered(s.current.data, ids, Cancel, s.current.buttonState, Remembered(s));
      }
    case Reset => RememberOne(Remembered(s), DeviceReset);
  }

  lemma FrameStepRemembered(s: Stream, raw: RawPointerData, buttons: set<nat>)
    requires Inv(s) && raw.HasIds()
    ensures Inv(Next(s, Frame(raw, buttons)))
    ensures RememberAll(Remembered(s), Events(s, Frame(raw, buttons))) == Remembered(Next(s, Frame(raw, buttons)))
  {
    hide FrameEvents, RawPointerData.HasIds, Cooked, Next, Events, AfterTouches, CookedPointerData.Valid, MemoryOf, RememberAll;
    FrameStep(s, raw, buttons);
    var current := CookedFrame(s, raw, buttons);
    AllIdsBelow(s.last.data);
    CopyRemembered(if s.motionAborted then s.last.data else AfterTouches(s.last, current), current);
    if !s.motionAborted {
      FrameRemembered(s.last, current, buttons);
    } else {
      IdsAreABijection(raw);
      CookedFrameIs(s, raw, buttons);
      NothingIsBlank(current);
      assert Events(s, Frame(raw, buttons)) == [];
      RememberNone(BLANK);
    }
  }

  lemma RememberNone(m: Memory)
    ensures RememberAll(m, []) == m
  {
  }

  lemma NothingIsBlank(state: CookedState)
    requires state.data.Sized()
    ensures state.data.Ids() == {} && state.buttonState == {} ==> MemoryOf(state) == BLANK
  {
  }

  lemma CookedFrameIs(s: Stream, raw: RawPointerData, buttons: set<nat>)
    requires s.current.data.Sized() && raw.HasIds()
    ensures raw.Sized()
    ensures var current := CookedFrame(s, raw, buttons);
            && current.data.touchingIdBits == raw.touchingIdBits && current.data.hoveringIdBits == raw.hoveringIdBits
            && current.buttonState == if raw.pointerCount == 0 then {} else buttons
  {
    CompleteIsSized(raw);
  }

  lemma CopyRemembered(last: CookedPointerData, current: CookedState)
    requires last.Sized() && current.data.Valid()
    ensures last.CopyFrom(current.data).Valid() && last.CopyFrom(current.data).Sized() && current.data.Sized()
    ensures MemoryOf(CookedState(last.CopyFrom(current.data), current.buttonState)) == MemoryOf(current)
  {
    CopyOfValid(last, current.data);
  }

  /** The state holds what the panel shows. */
  ghost predicate Holds(s: Stream, t: Shown)
    requires Inv(s)
  {
    AllIdsBelow(s.last.data);
    && t.touching == SamplesIn(s.last.data, s.last.data.touchingIdBits) && t.hovering == SamplesIn(s.last.data, s.last.data.hoveringIdBits)
    && t.buttons == s.last.buttonState && t.cancelled == s.motionAborted
  }

  lemma HoldsMeansTold(s: Stream, t: Shown)
    requires Inv(s) && Holds(s, t)
    ensures Remembered(s) == ToldOf(t)
  {
    hide CookedPointerData.Valid;
    AllIdsBelow(s.last.data);
    NoSamples(s.last.data, s.last.data.touchingIdBits);
    NoSamples(s.last.data, s.last.data.hoveringIdBits);
  }

  lemma NoSamples(data: CookedPointerData, ids: set<nat>)
    requires data.Sized() && Below(ids, MAX_POINTER_ID + 1)
    ensures SamplesIn(data, ids) == map[] <==> ids == {}
  {
    assert SamplesIn(data, ids).Keys == ids;
  }

  lemma StepHolds(s: Stream, t: Shown, input: Input)
    requires Inv(s) && WellFormed(input) && Holds(s, t)
    ensures Inv(Next(s, input)) && Holds(Next(s, input), Show(t, input))
  {
    AllIdsBelow(s.last.data);
    match input
    case Frame(raw, buttons) => FrameHolds(s, t, raw, buttons);
    case CancelTouch => NoSamples(s.last.data, s.last.data.touchingIdBits);
    case Reset =>
  }

  lemma FrameHolds(s: Stream, t: Shown, raw: RawPointerData, buttons: set<nat>)
    requires Inv(s) && raw.HasIds() && Holds(s, t)
    ensures Inv(Next(s, Frame(raw, buttons))) && Holds(Next(s, Frame(raw, buttons)), Show(t, Frame(raw, buttons)))
  {
    hide FrameEvents, RawPointerData.HasIds, Cooked, Next, Events, AfterTouches, CookedPointerData.Valid, SamplesIn, PointersOf;
    FrameStep(s, raw, buttons);
    IdsAreABijection(raw);
    var current := CookedFrame(s, raw, buttons);
    var last := if s.motionAborted then s.last.data else AfterTouches(s.last, current);
    AllIdsBelow(Next(s, Frame(raw, buttons)).last.data);
    CookedFrameIs(s, raw, buttons);
    CopySamples(last, current.data, raw.touchingIdBits);
    CopySamples(last, current.data, raw.hoveringIdBits);
    CookedSamples(s.current.data, raw, raw.touchingIdBits);
    CookedSamples(s.current.data, raw, raw.hoveringIdBits);
  }

  lemma CopySamples(last: CookedPointerData, current: CookedPointerData, ids: set<nat>)
    requires last.Sized() && current.Valid() && ids <= current.Ids()
    ensures last.CopyFrom(current).Sized() && current.Sized() && Below(ids, MAX_POINTER_ID + 1)
    ensures SamplesIn(last.CopyFrom(current), ids) == SamplesIn(current, ids)
  {
    CopyOfValid(last, current);
  }

  lemma CookedSamples(scratch: CookedPointerData, raw: RawPointerData, ids: set<nat>)
    requires scratch.Sized() && raw.HasIds() && ids <= raw.touchingIdBits + raw.hoveringIdBits
    ensures raw.Sized() && Cooked(scratch, raw).Sized() && Below(ids, MAX_POINTER_ID + 1)
    ensures SamplesIn(Cooked(scratch, raw), ids) == PointersOf(raw, ids)
  {
    hide Cooked, RawPointerData.HasIds;
    CookedIsValid(scratch, raw);
    IdsAreABijection(raw);
    forall id | id in ids
      ensures Cooked(scratch, raw).SampleFor(id) == PointersOf(raw, ids)[id]
    {
      CookedSample(scratch, raw, id);
    }
    assert SamplesIn(Cooked(scratch, raw), ids).Keys == ids == PointersOf(raw, ids).Keys;
  }

  lemma CookedSample(scratch: CookedPointerData, raw: RawPointerData, id: nat)
    requires scratch.Sized() && raw.HasIds() && id in raw.touchingIdBits + raw.hoveringIdBits
    ensures raw.Sized() && id <= MAX_POINTER_ID && Cooked(scratch, raw).Sized() && raw.idToIndex[id] < raw.pointerCount
    ensures var p := raw.pointers[raw.idToIndex[id]];
            Cooked(scratch, raw).SampleFor(id) == Sample(id, p.toolType, p.x, p.y, p.shape)
  {
    CookedIsValid(scratch, raw);
    IdsAreABijection(raw);
  }

  /** Over every run of frames, cancellations and resets the listener remembers what the panel shows: of each
      touching pointer the last sample, of each hovering one while none touches, and the pressed buttons; and
      nothing of touches that were cancelled. */
  lemma {:induction false} RunIsRemembered(s: Stream, t: Shown, inputs: seq<Input>)
    requires Inv(s) && Holds(s, t) && forall i :: 0 <= i < |inputs| ==> WellFormed(inputs[i])
    ensures RememberAll(ToldOf(t), Run(s, inputs).1) == ToldOf(ShowAll(t, inputs))
    decreases |inputs|
  {
    hide Inv, Holds, WellFormed, Next, Events, Remembered, Show, ToldOf;
    if inputs != [] {
      StepHolds(s, t, inputs[0]);
      HoldsMeansTold(s, t);
      StepRemembered(s, inputs[0]);
      HoldsMeansTold(Next(s, inputs[0]), Show(t, inputs[0]));
      RunIsRemembered(Next(s, inputs[0]), Show(t, inputs[0]), inputs[1..]);
      RememberConcat(ToldOf(t), Events(s, inputs[0]), Run(Next(s, inputs[0]), inputs[1..]).1);
    }
  }

  // ----- what the events of a frame say -----

  /** A pointer that touches now is told as it is now, one that goes up as it was told before. */
  ghost predicate Fresh(id: nat, sample: Sample, before: Shown, now: Shown) {
    if id in now.touching then sample == now.touching[id] else id in before.touching && sample == before.touching[id]
  }

  /** What the event says is true: of the pointers now, before for those that go, and of the buttons. */
  ghost predicate Tells(e: Event, before: Shown, now: Shown) {
    e.Motion? && |e.ids| == |e.samples|
    && match e.action
       case HoverEnter => Pairs(e.ids, e.samples) == now.hovering && e.buttonState == now.buttons
       case HoverMove => Pairs(e.ids, e.samples) == now.hovering && e.buttonState == now.buttons
       case HoverExit => Pairs(e.ids, e.samples) == before.hovering && e.buttonState == before.buttons
       case ButtonPress(b) => b in now.buttons && b !in before.buttons && b in e.buttonState
                              && Pairs(e.ids, e.samples) == if now.touching != map[] then now.touching else now.hovering
       case ButtonRelease(b) => b !in now.buttons && b in before.buttons && b !in e.buttonState
       case Cancel => false
       case _ => e.buttonState == now.buttons && forall k :: 0 <= k < |e.ids| ==> Fresh(e.ids[k], e.samples[k], before, now)
  }

  ghost predicate AllTell(events: seq<Event>, before: Shown, now: Shown) {
    forall e :: e in events ==> Tells(e, before, now)
  }

  lemma TellConcat(a: seq<Event>, b: seq<Event>, before: Shown, now: Shown)
    ensures AllTell(a + b, before, now) <==> AllTell(a, before, now) && AllTell(b, before, now)
  {
    assert forall e :: e in a + b <==> e in a || e in b;
  }

  ghost predicate AllFresh(data: CookedPointerData, ids: set<nat>, before: Shown, now: Shown)
    requires data.Sized() && Below(ids, MAX_POINTER_ID + 1)
  {
    forall id :: id in ids ==> Fresh(id, data.SampleFor(id), before, now)
  }

  lemma TouchTells(request: Request, data: CookedPointerData, ids: set<nat>, before: Shown, now: Shown)
    requires CanDispatch(request, data, ids) && AllFresh(data, ids, before, now)
    requires request.Plain? ==> request.action.Move?
    ensures AllTell([MotionFor(request, data, ids, now.buttons)], before, now)
  {
    AscendingLists(ids);
    var order := Ascending(ids);
    assert forall k :: 0 <= k < |order| ==> order[k] in ids;
  }

  lemma {:induction false} UpsTell(data: CookedPointerData, up: set<nat>, dispatched: set<nat>, before: Shown, now: Shown)
    requires data.Sized() && up <= dispatched && Below(dispatched, MAX_POINTER_ID + 1) && AllFresh(data, dispatched, before, now)
    ensures AllTell(UpEvents(data, up, dispatched, now.buttons), before, now)
    decreases |up|
  {
    hide Fresh, Tells, MotionFor;
    if up != {} {
      var id := FirstMarked(up);
      TouchTells(OneUp(id), data, dispatched, before, now);
      UpsTell(data, up - {id}, dispatched - {id}, before, now);
      TellConcat([MotionFor(OneUp(id), data, dispatched, now.buttons)],
                 UpEvents(data, up - {id}, dispatched - {id}, now.buttons), before, now);
    }
  }

  lemma {:induction false} DownsTell(data: CookedPointerData, down: set<nat>, dispatched: set<nat>, before: Shown, now: Shown)
    requires data.Sized() && Below(down + dispatched, MAX_POINTER_ID + 1) && AllFresh(data, down + dispatched, before, now)
    ensures AllTell(DownEvents(data, down, dispatched, now.buttons), before, now)
    decreases |down|
  {
    hide Fresh, Tells, MotionFor;
    if down != {} {
      var id := FirstMarked(down);
      TouchTells(OneDown(id), data, dispatched + {id}, before, now);
      DownsTell(data, down - {id}, dispatched + {id}, before, now);
      TellConcat([MotionFor(OneDown(id), data, dispatched + {id}, now.buttons)],
                 DownEvents(data, down - {id}, dispatched + {id}, now.buttons), before, now);
    }
  }

  lemma PlainTells(data: CookedPointerData, ids: set<nat>, action: Action, buttons: set<nat>, before: Shown, now: Shown)
    requires CanDispatch(Plain(action), data, ids)
    requires match action
             case HoverEnter => SamplesIn(data, ids) == now.hovering && buttons == now.buttons
             case HoverMove => SamplesIn(data, ids) == now.hovering && buttons == now.buttons
             case HoverExit => SamplesIn(data, ids) == before.hovering && buttons == before.buttons
             case ButtonPress(b) => b in now.buttons && b !in before.buttons && b in buttons
                                    && SamplesIn(data, ids) == if now.touching != map[] then now.touching else now.hovering
             case ButtonRelease(b) => b !in now.buttons && b in before.buttons && b !in buttons
             case _ => false
    ensures AllTell([MotionFor(Plain(action), data, ids, buttons)], before, now)
  {
    PairsAre(data, ids);
  }

  lemma {:induction false} ReleasesTell(data: CookedPointerData, ids: set<nat>, released: set<nat>, buttons: set<nat>, before: Shown, now: Shown)
    requires data.Sized() && Below(ids, MAX_POINTER_ID + 1) && released <= before.buttons - now.buttons
    ensures AllTell(ReleaseEvents(data, ids, released, buttons), before, now)
    decreases |released|
  {
    hide Tells, MotionFor;
    if released != {} {
      var b := FirstMarked(released);
      PlainTells(data, ids, ButtonRelease(b), buttons - {b}, before, now);
      ReleasesTell(data, ids, released - {b}, buttons - {b}, before, now);
      TellConcat([MotionFor(Plain(ButtonRelease(b)), data, ids, buttons - {b})],
                 ReleaseEvents(data, ids, released - {b}, buttons - {b}), before, now);
    }
  }

  lemma {:induction false} PressesTell(data: CookedPointerData, ids: set<nat>, pressed: set<nat>, buttons: set<nat>, before: Shown, now: Shown)
    requires data.Sized() && Below(ids, MAX_POINTER_ID + 1) && pressed <= now.buttons - before.buttons
    requires SamplesIn(data, ids) == if now.touching != map[] then now.touching else now.hovering
    ensures AllTell(PressEvents(data, ids, pressed, buttons), before, now)
    decreases |pressed|
  {
    hide Tells, MotionFor;
    if pressed != {} {
      var b := FirstMarked(pressed);
      PlainTells(data, ids, ButtonPress(b), buttons + {b}, before, now);
      PressesTell(data, ids, pressed - {b}, buttons + {b}, before, now);
      TellConcat([MotionFor(Plain(ButtonPress(b)), data, ids, buttons + {b})],
                 PressEvents(data, ids, pressed - {b}, buttons + {b}), before, now);
    }
  }

  ghost function ShownOf(state: CookedState): Shown
    requires state.data.Sized()
  {
    Shown(SamplesIn(state.data, state.data.touchingIdBits), SamplesIn(state.data, state.data.hoveringIdBits), state.buttonState, false)
  }

  lemma TouchesTell(last: CookedState, current: CookedState)
    requires last.data.Valid() && current.data.Valid() && last.data.Sized() && current.data.Sized()
    ensures AllTell(TouchEvents(last, current), ShownOf(last), ShownOf(current))
  {
    hide Tells, MotionFor, UpEvents, DownEvents, AnyMoved, WithMoved, CookedPointerData.Valid, CookedPointerData.Sized;
    var before, now := ShownOf(last), ShownOf(current);
    var lastIds, ids := last.data.touchingIdBits, current.data.touchingIdBits;
    var moveIds, buttons := lastIds * ids, current.buttonState;
    AllIdsBelow(last.data);
    AllIdsBelow(current.data);
    CurrentIsFresh(last, current);
    if lastIds == ids {
      if ids != {} {
        TouchTells(Plain(Move), current.data, ids, before, now);
      }
    } else {
      TouchParts(last, current);
      var moved := WithMoved(last.data, current.data, moveIds);
      MovedIsFresh(last, current);
      UpsTell(moved, lastIds - ids, lastIds, before, now);
      var ups := UpEvents(moved, lastIds - ids, lastIds, buttons);
      var move := if MoveNeeded(last, current) && moveIds != {} then [MotionFor(Plain(Move), current.data, moveIds, buttons)] else [];
      if moveIds != {} {
        TouchTells(Plain(Move), current.data, moveIds, before, now);
      }
      DownsTell(current.data, ids - lastIds, moveIds, before, now);
      TellConcat(ups, move, before, now);
      TellConcat(ups + move, DownEvents(current.data, ids - lastIds, moveIds, buttons), before, now);
    }
  }

  lemma CurrentIsFresh(last: CookedState, current: CookedState)
    requires last.data.Sized() && current.data.Valid() && current.data.Sized()
    requires Below(current.data.touchingIdBits, MAX_POINTER_ID + 1)
    ensures AllFresh(current.data, current.data.touchingIdBits, ShownOf(last), ShownOf(current))
    ensures forall ids :: ids <= current.data.touchingIdBits ==>
              Below(ids, MAX_POINTER_ID + 1) && AllFresh(current.data, ids, ShownOf(last), ShownOf(current))
  {
  }

  lemma MovedIsFresh(last: CookedState, current: CookedState)
    requires last.data.Valid() && current.data.Valid() && last.data.Sized() && current.data.Sized()
    ensures var moveIds := last.data.touchingIdBits * current.data.touchingIdBits;
            && WithMoved(last.data, current.data, moveIds).Sized() && Below(last.data.touchingIdBits, MAX_POINTER_ID + 1)
            && AllFresh(WithMoved(last.data, current.data, moveIds), last.data.touchingIdBits, ShownOf(last), ShownOf(current))
  {
    hide WithMoved;
    MovedIsValid(last.data, current.data, last.data.touchingIdBits * current.data.touchingIdBits);
  }

  lemma HoversTell(last: CookedState, current: CookedState, rawButtons: set<nat>, sent: bool, still: bool)
    requires last.data.Valid() && current.data.Valid() && last.data.Sized() && current.data.Sized()
    requires Hovers(current) ==> rawButtons == current.buttonState
    ensures AllTell(HoverExitEvents(last, current, sent) + HoverEvents(current, rawButtons, still), ShownOf(last), ShownOf(current))
  {
    hide Tells, MotionFor, CookedPointerData.Valid;
    var before, now := ShownOf(last), ShownOf(current);
    AllIdsBelow(last.data);
    AllIdsBelow(current.data);
    if sent && !Hovers(current) {
      PlainTells(last.data, last.data.hoveringIdBits, HoverExit, last.buttonState, before, now);
    }
    if Hovers(current) {
      var ids := current.data.hoveringIdBits;
      PlainTells(current.data, ids, HoverEnter, rawButtons, before, now);
      PlainTells(current.data, ids, HoverMove, rawButtons, before, now);
    }
  }

  lemma EventsTell(last: CookedState, current: CookedState, rawButtons: set<nat>, sent: bool)
    requires last.data.Valid() && current.data.Valid() && last.data.Sized() && current.data.Sized()
    requires Hovers(current) ==> rawButtons == current.buttonState
    ensures AllTell(FrameEvents(last, current, rawButtons, sent), ShownOf(last), ShownOf(current))
  {
    hide Tells, MotionFor, TouchEvents, ReleaseEvents, PressEvents, HoverExitEvents, HoverEvents, CookedPointerData.Valid;
    var before, now, still := ShownOf(last), ShownOf(current), sent && Hovers(current);
    var e0, e1 := ButtonReleaseEvents(last, current), HoverExitEvents(last, current, sent);
    var e2, e3, e4 := TouchEvents(last, current), HoverEvents(current, rawButtons, still), ButtonPressEvents(last, current);
    AllIdsBelow(last.data);
    AllIdsBelow(current.data);
    NoSamples(current.data, current.data.touchingIdBits);
    ReleasesTell(current.data, last.data.ActiveIdBits(), last.buttonState - current.buttonState, last.buttonState, before, now);
    PressesTell(current.data, current.data.ActiveIdBits(), current.buttonState - last.buttonState, last.buttonState, before, now);
    TouchesTell(last, current);
    HoversTell(last, current, rawButtons, sent, still);
    TellConcat(e1, e3, before, now);
    TellConcat(e0, e1, before, now);
    TellConcat(e0 + e1, e2, before, now);
    TellConcat(e0 + e1 + e2, e3, before, now);
    TellConcat(e0 + e1 + e2 + e3, e4, before, now);
  }

  /** Every event of a frame tells the truth about the two frames around it. */
  lemma FrameTells(s: Stream, t: Shown, raw: RawPointerData, buttons: set<nat>)
    requires Inv(s) && raw.HasIds() && Holds(s, t) && !s.motionAborted
    ensures AllTell(Events(s, Frame(raw, buttons)), t, Show(t, Frame(raw, buttons)))
  {
    hide FrameEvents, RawPointerData.HasIds, Cooked, Next, Events, AfterTouches, CookedPointerData.Valid, SamplesIn, PointersOf, Tells, AllTell;
    FrameStep(s, raw, buttons);
    IdsAreABijection(raw);
    var current := CookedFrame(s, raw, buttons);
    CookedFrameIs(s, raw, buttons);
    AllIdsBelow(s.last.data);
    CookedSamples(s.current.data, raw, raw.touchingIdBits);
    CookedSamples(s.current.data, raw, raw.hoveringIdBits);
    EventsTell(s.last, current, buttons, s.sentHoverEnter);
  }

  // ----- what a listener has heard so far -----

  /** What a frame shows: a pointer that hovers only while none touches, and buttons only while there are pointers. */
  ghost function FrameMemory(raw: RawPointerData, buttons: set<nat>): Memory
    requires raw.HasIds()
  {
    Memory(PointersOf(raw, raw.touchingIdBits),
           if raw.touchingIdBits == {} then PointersOf(raw, raw.hoveringIdBits) else map[],
           if raw.touchingIdBits + raw.hoveringIdBits == {} then {} else buttons)
  }

  /** Who heard the events knows what the state holds, and that is the last raw sample unless the touches were
      cancelled. */
  ghost predicate Recalls(s: Stream, raw: RawPointerData, buttons: set<nat>, events: seq<Event>)
    requires Inv(s) && raw.HasIds()
  {
    RememberAll(BLANK, events) == Remembered(s) == if s.motionAborted then BLANK else FrameMemory(raw, buttons)
  }

  lemma RecallsFrame(s: Stream, events: seq<Event>, raw: RawPointerData, buttons: set<nat>)
    requires Inv(s) && raw.HasIds() && RememberAll(BLANK, events) == Remembered(s)
    ensures Inv(Next(s, Frame(raw, buttons)))
    ensures Recalls(Next(s, Frame(raw, buttons)), raw, buttons, events + Events(s, Frame(raw, buttons)))
  {
    hide Inv, Holds, Next, Events, Remembered, PointersOf, SamplesIn, RawPointerData.HasIds, CookedPointerData.Valid;
    var t := ShownIn(s);
    StepHolds(s, t, Frame(raw, buttons));
    StepRemembered(s, Frame(raw, buttons));
    RememberConcat(BLANK, events, Events(s, Frame(raw, buttons)));
    HoldsMeansTold(Next(s, Frame(raw, buttons)), Show(t, Frame(raw, buttons)));
    NoPointersOf(raw, raw.touchingIdBits);
    NoPointersOf(raw, raw.hoveringIdBits);
    AbortedWith(s, t, raw, buttons);
  }

  lemma AbortedWith(s: Stream, t: Shown, raw: RawPointerData, buttons: set<nat>)
    requires Inv(s) && raw.HasIds() && Holds(s, t)
    ensures Inv(Next(s, Frame(raw, buttons))) && Next(s, Frame(raw, buttons)).motionAborted == Show(t, Frame(raw, buttons)).cancelled
  {
    hide Next;
    StepHolds(s, t, Frame(raw, buttons));
  }

  ghost function ShownIn(s: Stream): (t: Shown)
    requires Inv(s)
    ensures Holds(s, t)
  {
    AllIdsBelow(s.last.data);
    ShownOf(s.last).(cancelled := s.motionAborted)
  }

  lemma NoPointersOf(raw: RawPointerData, ids: set<nat>)
    requires raw.HasIds() && ids <= raw.touchingIdBits + raw.hoveringIdBits
    ensures PointersOf(raw, ids) == map[] <==> ids == {}
  {
    IdsAreABijection(raw);
    assert PointersOf(raw, ids).Keys == ids;
  }

  lemma RecallsCancel(s: Stream, events: seq<Event>, raw: RawPointerData, buttons: set<nat>)
    requires Inv(s) && raw.HasIds() && Recalls(s, raw, buttons, events)
    ensures Inv(Next(s, CancelTouch)) && Recalls(Next(s, CancelTouch), raw, buttons, events + Events(s, CancelTouch))
  {
    hide FrameMemory, MemoryOf, RawPointerData.HasIds, CookedPointerData.Valid;
    StepRemembered(s, CancelTouch);
    RememberConcat(BLANK, events, Events(s, CancelTouch));
  }

  lemma RecallsReset(s: Stream, events: seq<Event>, raw: RawPointerData)
    requires Inv(s) && raw.HasIds() && raw.pointerCount == 0
    ensures Inv(Next(s, Reset)) && Recalls(Next(s, Reset), raw, {}, events + [DeviceReset])
  {
    IdsAreABijection(raw);
    NothingIsBlank(Next(s, Reset).last);
    RememberConcat(BLANK, events, [DeviceReset]);
    RememberOne(RememberAll(BLANK, events), DeviceReset);
    NoPointersOf(raw, {});
  }

  lemma RecallsNothing(s: Stream, raw: RawPointerData)
    requires Inv(s) && raw.HasIds() && raw.pointerCount == 0 && s.last.data.pointerCount == 0 && !s.motionAborted
    ensures Recalls(s, raw, {}, [])
  {
    IdsAreABijection(raw);
    NothingIsBlank(s.last);
    NoPointersOf(raw, {});
  }

  /** Samples with the same pointers show the same. */
  lemma SameFrameMemory(raw: RawPointerData, other: RawPointerData, buttons: set<nat>)
    requires raw.HasIds() && other.HasIds() && raw.Sized() && other.Sized()
    requires raw.pointers[..raw.pointerCount] == other.pointers[..other.pointerCount]
    requires raw.touchingIdBits == other.touchingIdBits && raw.hoveringIdBits == other.hoveringIdBits
    ensures FrameMemory(raw, buttons) == FrameMemory(other, buttons)
  {
    hide RawPointerData.HasIds;
    SamePointers(raw, other, raw.touchingIdBits);
    SamePointers(raw, other, raw.hoveringIdBits);
  }

  lemma SamePointers(raw: RawPointerData, other: RawPointerData, ids: set<nat>)
    requires raw.HasIds() && other.HasIds() && raw.Sized() && other.Sized()
    requires raw.pointers[..raw.pointerCount] == other.pointers[..other.pointerCount]
    requires ids <= raw.touchingIdBits + raw.hoveringIdBits && ids <= other.touchingIdBits + other.hoveringIdBits
    ensures PointersOf(raw, ids) == PointersOf(other, ids)
  {
    hide RawPointerData.HasIds;
    IdsAreABijection(raw);
    IdsAreABijection(other);
    forall id | id in ids
      ensures raw.pointers[raw.idToIndex[id]] == other.pointers[other.idToIndex[id]]
    {
      var k, l := raw.idToIndex[id], other.idToIndex[id];
      assert raw.pointers[..raw.pointerCount][k] == raw.pointers[k] == other.pointers[k];
      assert k == l;
    }
  }
}
