/** Pointer mode: a run that sends a move of no pointers. */
module GestureExamples {
  import opened BitSets
  import opened RawPointers
  import opened PointerStream
  import opened PointerGestures

  /** Two fingers before they have ids. */
  function NewFingers(): RawPointerData {
    RawPointerData(2, seq(MAX_POINTERS, k => Pointer(0, 0, 0, Finger, false, 0)), {}, {}, seq(MAX_POINTER_ID + 1, id => 0))
  }

  /** Two fingers touching. */
  function TwoFingers(i: nat, j: nat): RawPointerData
    requires i < j <= MAX_POINTER_ID
  {
    NewFingers().WithId(0, i).WithId(1, j)
  }

  lemma TwoFingersHaveIds(i: nat, j: nat)
    requires i < j <= MAX_POINTER_ID
    ensures TwoFingers(i, j).HasIds()
  {
    hide RawPointerData.IdsAre, RawPointerData.HasIds;
    var none: map<nat, nat>, d := map[], NewFingers();
    NoIdsYet(d);
    assert d.ClearIdBits() == d;
    GivingAnId(d, none, 0, i);
    GivingAnId(d.WithId(0, i), none[0 := i], 1, j);
    assert none[0 := i][1 := j].Keys == Range(2);
    AllHaveIds(TwoFingers(i, j), none[0 := i][1 := j]);
  }

  lemma TwoFingersFound(i: nat, j: nat)
    requires i < j <= MAX_POINTER_ID
    ensures var d := TwoFingers(i, j);
            && |d.pointers| == MAX_POINTERS && |d.idToIndex| == MAX_POINTER_ID + 1 && d.idToIndex[i] == 0 && d.idToIndex[j] == 1
            && d.pointers[0].toolType == d.pointers[1].toolType == Finger && d.touchingIdBits == {i, j} && d.hoveringIdBits == {}
  {
  }

  /** The two are the fingers of the frame. */
  lemma TwoFingersAre(f: PointerFrame, i: nat, j: nat)
    requires i < j <= MAX_POINTER_ID && TwoFingers(i, j).HasIds() && IsClassified(f, TwoFingers(i, j))
    ensures f.fingerIdBits == {i, j} && f.stylusIdBits == {} && f.mouseIdBits == {}
  {
    hide RawPointerData.HasIds, TwoFingers;
    var d := TwoFingers(i, j);
    TwoFingersFound(i, j);
    assert forall id :: id in {i, j} ==> ToolOf(d, id) == Finger;
    assert WithTool(d, {i, j}, {Stylus, Eraser}) == {} && WithTool(d, {i, j}, {Mouse}) == {} && WithTool(d, {}, {Stylus, Eraser}) == {};
    assert WithTool(d, {i, j}, {Finger, Unknown}) == {i, j};
  }

  const STILL: Geometry := Geometry(true, {}, 0, false, false, false, false)
  const APART: Geometry := Geometry(true, {}, 2, true, false, false, false)

  /** A frame of two fingers in which no pointer button is pressed. */
  method TwoFingerFrame(m: PointerModeMapper, when: int, i: nat, j: nat, buttons: set<nat>, g: Geometry)
    requires m.Valid() && (m.usage == NoUsage || m.usage == Gestures)
    requires i < j <= MAX_POINTER_ID && buttons * POINTER_BUTTONS == {} && m.gesture.quietTime + m.gesture.config.quietInterval <= when
    requires m.gesture.lastGestureMode != BUTTON_CLICK_OR_DRAG
    modifies m, m.gesture, m.gesture.freeformTouchToGestureIdMap
    ensures m.Valid() && m.usage == Gestures && m.last.fingerIdBits == {i, j} && m.last.buttonState == buttons
    ensures m.gesture.quietTime == old(m.gesture.quietTime)
    ensures var d := old(m.gesture.DecideMany(when, {i, j}, m.last.fingerIdBits, g, m.gesture.FirstTouch(when, {i, j})));
            && m.gesture.lastGestureMode == d.mode
            && m.sentEmptyMove == (old(m.sentEmptyMove) || AllFingersReplaced(old(m.last), old(m.gesture.lastGestureMode), m.last, d))
  {
    hide RawPointerData.HasIds, IsClassified, PointerModeMapper.Valid;
    TwoFingersHaveIds(i, j);
    assert !IsPointerDown(buttons);
    m.CookAndDispatch(when, TwoFingers(i, j), buttons, false, g);
    TwoFingersAre(m.last, i, j);
    assert |{i, j}| == 2;
  }

  /** Two fingers touch, move apart, and are replaced by two others while button 0 changes. */
  method ReplaceAllFingers(config: Config) returns (m: PointerModeMapper)
    requires config.quietInterval <= -LLONG_MIN
    ensures m.Valid() && m.sentEmptyMove && !AllLegal(NOTHING, m.outbox)
  {
    hide PointerModeMapper.Valid;
    m := new PointerModeMapper(config);
    TwoFingerFrame(m, 0, 0, 1, {}, STILL);
    TwoFingerFrame(m, 0, 0, 1, {}, APART);
    TwoFingerFrame(m, 0, 2, 3, {0}, APART);
    EmptyMoveIsIllegal(m);
  }

  lemma EmptyMoveIsIllegal(m: PointerModeMapper)
    requires m.Valid() && m.sentEmptyMove
    ensures !AllLegal(NOTHING, m.outbox)
  {
  }
}
