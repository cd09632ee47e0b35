/** Direct mode: runs in which an event says something else than the sample it stands for. */
module TouchExamples {
  import opened BitSets
  import opened RawPointers
  import opened TouchStream
  import opened TouchRuns
  import opened TouchMapper

  /** The stream of a new mapper. */
  function Start(): Stream {
    Stream(NoCooked(), NoCooked(), false, false)
  }

  /** One touching pointer with this id. */
  function OnePointer(id: nat): RawPointerData
    requires id <= MAX_POINTER_ID
  {
    RawPointerData(1, NoPointers().pointers[0 := Pointer(id, 0, 0, Finger, false, 0)], {}, {id}, NoPointers().idToIndex)
  }

  lemma OnePointerHasIds(id: nat)
    requires id <= MAX_POINTER_ID
    ensures OnePointer(id).HasIds()
  {
    var d := OnePointer(id);
    assert NoPointers().Sized();
    var owned := map[0 := id];
    assert d.pointers[0] == Pointer(id, 0, 0, Finger, false, 0) && d.idToIndex[id] == 0 && 0 in owned && owned[0] == id;
    assert d.IdsAre(owned);
    assert owned.Keys == Range(1);
    AllHaveIds(d, owned);
  }

  lemma StartFits()
    ensures Inv(Start()) && Known(Start()) == Listener({}, false)
  {
    NoRawHasIds();
  }

  /** The stream after a first frame with one pointer. */
  ghost function Touched(id: nat, buttons: set<nat>): (s: Stream)
    requires id <= MAX_POINTER_ID
    ensures Inv(s)
  {
    StartFits();
    OnePointerHasIds(id);
    Next(Start(), Frame(OnePointer(id), buttons))
  }

  lemma TouchedIs(id: nat, buttons: set<nat>)
    requires id <= MAX_POINTER_ID
    ensures var s := Touched(id, buttons);
            && !s.motionAborted && s.last.buttonState == buttons && s.last.data.Valid() && s.last.data.Sized()
            && s.last.data.touchingIdBits == {id} && s.last.data.hoveringIdBits == {} && s.last.data.idToIndex[id] == 0
  {
    hide RawPointerData.HasIds, Inv, Next, CookedPointerData.Valid, FrameEvents, AfterTouches;
    StartFits();
    OnePointerHasIds(id);
    FrameStep(Start(), OnePointer(id), buttons);
    FoundFirst(Touched(id, buttons));
  }

  lemma FoundFirst(s: Stream)
    requires Inv(s) && s.last.data.pointerCount == 1
    ensures s.last.data.Valid() && s.last.data.Sized() && forall id :: id in s.last.data.Ids() ==> s.last.data.idToIndex[id] == 0
  {
  }

  /** Pointer 5 leaves while its button is released, and pointer 7 takes its place: the release event comes
      with the sample of the wrong pointer. */
  lemma ReleaseNamesTheWrongPointer()
    ensures OnePointer(5).HasIds() && OnePointer(7).HasIds() && Inv(Start())
    ensures !AllFaithful(Run(Start(), [Frame(OnePointer(5), {0}), Frame(OnePointer(7), {})]).1)
  {
    hide RawPointerData.HasIds, Inv, Next, CookedPointerData.Valid, Events, AllFaithful;
    StartFits();
    OnePointerHasIds(5);
    OnePointerHasIds(7);
    TouchedIs(5, {0});
    var s := Touched(5, {0});
    var first, second := Frame(OnePointer(5), {0}), Frame(OnePointer(7), {});
    assert 5 in s.last.data.ActiveIdBits() && !StillFound(s.last.data, OnePointer(7), 5);
    assert 0 in s.last.buttonState - CookedButtons(OnePointer(7), {});
    FrameIsFaithfulIff(s, OnePointer(7), {});
    TwoInputs(Start(), first, second);
    FaithfulConcat(Events(Start(), first), Events(s, second));
  }

  lemma TwoInputs(s: Stream, first: Input, second: Input)
    requires Inv(s) && WellFormed(first) && WellFormed(second)
    ensures Run(s, [first, second]).1 == Events(s, first) + Events(Next(s, first), second)
  {
    hide Inv, Next, WellFormed, Events;
    var s' := Next(s, first);
    assert [first, second][1..] == [second] && [second][1..] == [];
    assert Run(s', [second]).1 == Events(s', second) + [];
  }

  /** Button 0 is released while button 1 is pressed: the last event still reports both as pressed. */
  lemma PressReportsAReleasedButton()
    ensures OnePointer(5).HasIds() && Inv(Start())
    ensures var events := Run(Start(), [Frame(OnePointer(5), {0}), Frame(OnePointer(5), {1})]).1;
            events != [] && events[|events| - 1].Motion? && events[|events| - 1].buttonState != {1}
  {
    hide RawPointerData.HasIds, Inv, Next, CookedPointerData.Valid, Events, ButtonReleaseEvents, HoverExitEvents, TouchEvents, HoverEvents, ButtonPressEvents;
    StartFits();
    OnePointerHasIds(5);
    TouchedIs(5, {0});
    var s := Touched(5, {0});
    var first, second := Frame(OnePointer(5), {0}), Frame(OnePointer(5), {1});
    TwoInputs(Start(), first, second);
    FrameStep(s, OnePointer(5), {1});
    var current := CookedFrame(s, OnePointer(5), {1});
    assert 1 in current.buttonState - s.last.buttonState && 0 in s.last.buttonState && 0 !in current.buttonState;
    PressesReportCurrentIff(s.last, current);
    var presses, all := ButtonPressEvents(s.last, current), Run(Start(), [first, second]).1;
    assert all[|all| - 1] == presses[|presses| - 1];
  }
}
