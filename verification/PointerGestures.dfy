/** `TouchInputMapper` in pointer mode: touch-pad gestures, stylus and mouse, translated through the
    pointer on screen. */
module PointerGestures {
  import opened BitSets
  import opened RawPointers
  import opened PointerStream
  import opened Freeform

  /** `PointerGesture::Mode`. */
  datatype Mode = NEUTRAL | TAP | TAP_DRAG | BUTTON_CLICK_OR_DRAG | HOVER | PRESS | SWIPE | FREEFORM | QUIET

  datatype Usage = NoUsage | Gestures | StylusUsage | MouseUsage

  /** The gesture holds pointers down. */
  predicate HoldsDown(mode: Mode) {
    mode == TAP || mode == TAP_DRAG || mode == BUTTON_CLICK_OR_DRAG || mode == PRESS || mode == SWIPE || mode == FREEFORM
  }

  /** A gesture of one finger that a tap may come out of. */
  predicate LeadsToTap(mode: Mode) {
    mode == HOVER || mode == TAP || mode == TAP_DRAG
  }

  /** The three gestures of several fingers, in the order in which one can turn into the next. */
  function Stage(mode: Mode): nat {
    match mode
    case PRESS => 1
    case SWIPE => 2
    case FREEFORM => 3
    case _ => 0
  }

  const LLONG_MIN: int := -0x8000_0000_0000_0000

  /** Bit positions of the three pointer buttons. */
  const POINTER_BUTTONS: set<nat> := {29, 30, 31}

  predicate IsPointerDown(buttonState: set<nat>) {
    buttonState * POINTER_BUTTONS != {}
  }

  /** Outcomes of the comparisons of coordinates, speeds and angles, which the model leaves open. */
  datatype Geometry = Geometry(
    withinTapSlop: bool, fastest: set<nat>, farMovers: nat, tooWideForSwipe: bool, bothMoved: bool, sameDirection: bool,
    samplesMoved: bool)

  datatype Config = Config(tapInterval: int, tapDragInterval: int, quietInterval: int, settleInterval: int)

  /** What a frame does to the gesture: its mode, and whether the gesture before is cancelled or finished. */
  datatype Decision = Decision(mode: Mode, cancel: bool, finish: bool)

  /** What a mode says about the pointers it holds, the active gesture id and the freeform table. */
  ghost predicate ModeFits(mode: Mode, ids: set<nat>, active: int, table: seq<nat>, fingers: set<nat>) {
    match mode
    case FREEFORM => |fingers| >= 2 && Maps(table, fingers, ids) && exists id :: id in ids && id == active
    case _ => if HoldsDown(mode) then active == 0 && ids == {0} else ids == {}
  }

  /** The ids that a frame of this mode reports: a hovering pointer is reported but not down. */
  ghost function HeldIds(mode: Mode, ids: set<nat>): set<nat> {
    if HoldsDown(mode) then ids else {}
  }

  class PointerGesture {
    const config: Config
    var firstTouchTime: int
    var activeTouchId: int
    var activeGestureId: int
    var currentGestureMode: Mode
    var currentGestureIdBits: set<nat>
    var lastGestureMode: Mode
    var lastGestureIdBits: set<nat>
    var tapDownTime: int
    var tapUpTime: int
    var quietTime: int
    const freeformTouchToGestureIdMap: array<nat>

    /** The gestures since a finger last went down on the empty pad in case 4. */
    ghost var sinceDown: seq<Mode>

    /** `lastFingers` are the fingers of the last cooked sample. */
    ghost predicate Valid(lastFingers: set<nat>)
      reads this`lastGestureMode, this`lastGestureIdBits, this`activeGestureId, this`sinceDown, this`tapDownTime, freeformTouchToGestureIdMap
    {
      && freeformTouchToGestureIdMap.Length == MAX_POINTER_ID + 1
      && |lastFingers| <= MAX_POINTERS
      && ModeFits(lastGestureMode, lastGestureIdBits, activeGestureId, freeformTouchToGestureIdMap[..], lastFingers)
      && (sinceDown != [] ==> sinceDown[|sinceDown| - 1] == lastGestureMode)
      && (tapDownTime != LLONG_MIN ==> forall i :: 0 <= i < |sinceDown| - 1 ==> LeadsToTap(sinceDown[i]))
    }

    /** As long as the time of the finger going down is kept, nothing but one-finger gestures has been. */
    ghost predicate TapReady()
      reads this`tapDownTime, this`sinceDown
    {
      tapDownTime != LLONG_MIN ==> forall m :: m in sinceDown ==> LeadsToTap(m)
    }

    constructor (config: Config)
      ensures Valid({}) && fresh(freeformTouchToGestureIdMap)
      ensures lastGestureIdBits == {} && lastGestureMode == NEUTRAL && quietTime == LLONG_MIN && this.config == config
    {
      this.config := config;
      freeformTouchToGestureIdMap := new nat[MAX_POINTER_ID + 1](i => 0);
      firstTouchTime, activeTouchId, activeGestureId := LLONG_MIN, -1, -1;
      currentGestureMode, currentGestureIdBits, lastGestureMode, lastGestureIdBits := NEUTRAL, {}, NEUTRAL, {};
      tapDownTime, tapUpTime, quietTime, sinceDown := LLONG_MIN, LLONG_MIN, LLONG_MIN, [];
    }

    /** `reset`. */
    method Reset()
      modifies this
      ensures lastGestureMode == NEUTRAL && lastGestureIdBits == {} && currentGestureIdBits == {}
      ensures sinceDown == [] && tapDownTime == LLONG_MIN
    {
      firstTouchTime, activeTouchId, activeGestureId := LLONG_MIN, -1, -1;
      currentGestureMode, currentGestureIdBits, lastGestureMode, lastGestureIdBits := NEUTRAL, {}, NEUTRAL, {};
      tapDownTime, tapUpTime, quietTime, sinceDown := LLONG_MIN, LLONG_MIN, LLONG_MIN, [];
    }

    /** What the preparation of a frame promises its dispatch. */
    ghost predicate Ready(fingers: set<nat>, lastFingers: set<nat>, table0: seq<nat>, cancel: bool, finish: bool)
      reads this`currentGestureMode, this`currentGestureIdBits, this`activeGestureId, this`lastGestureMode, this`lastGestureIdBits,
            freeformTouchToGestureIdMap
    {
      && freeformTouchToGestureIdMap.Length == MAX_POINTER_ID + 1
      && ModeFits(currentGestureMode, HeldIds(currentGestureMode, currentGestureIdBits), activeGestureId,
                  freeformTouchToGestureIdMap[..], fingers)
      && (currentGestureMode == HOVER ==> currentGestureIdBits != {})
      && (!HoldsDown(currentGestureMode) ==> finish || lastGestureIdBits == {})
      && (currentGestureMode == FREEFORM && lastGestureMode == FREEFORM ==>
            && Below(fingers, MAX_POINTER_ID + 1) && Below(lastFingers, MAX_POINTER_ID + 1) && |table0| == MAX_POINTER_ID + 1
            && Continues(table0, lastFingers, lastGestureIdBits, freeformTouchToGestureIdMap[..], fingers))
      && (currentGestureMode == FREEFORM && !cancel && !finish ==> lastGestureMode == FREEFORM)
      && (HoldsDown(currentGestureMode) && currentGestureMode != FREEFORM && lastGestureMode == FREEFORM ==> cancel || finish)
    }

    method ResetTap()
      modifies this`tapDownTime, this`tapUpTime
      ensures tapDownTime == tapUpTime == LLONG_MIN
    {
      tapDownTime, tapUpTime := LLONG_MIN, LLONG_MIN;
    }

    /** A gesture of one pointer, which always has the active gesture id. */
    method ReportOne(mode: Mode)
      requires 0 <= activeGestureId
      modifies this`currentGestureMode, this`currentGestureIdBits
      ensures currentGestureMode == mode && currentGestureIdBits == {activeGestureId}
    {
      currentGestureMode := mode;
      currentGestureIdBits := {activeGestureId};
    }

    method ReportNone(mode: Mode)
      modifies this`currentGestureMode, this`currentGestureIdBits, this`activeGestureId
      ensures currentGestureMode == mode && currentGestureIdBits == {} && activeGestureId == -1
    {
      activeGestureId := -1;
      currentGestureMode := mode;
      currentGestureIdBits := {};
    }

    // ----- what a frame decides -----

    /** When the first of the fingers went down. */
    function FirstTouch(when: int, fingers: set<nat>): int
      reads this`activeTouchId, this`firstTouchTime
    {
      if activeTouchId < 0 && fingers != {} then when else firstTouchTime
    }

    /** A gesture of several fingers, or a button, has just been left half way. */
    predicate EntersQuiet(fingerCount: nat, pointerDown: bool)
      reads this`lastGestureMode
    {
      (Stage(lastGestureMode) > 0 && fingerCount < 2)
      || (lastGestureMode == BUTTON_CLICK_OR_DRAG && fingerCount >= 2 && !pointerDown)
    }

    predicate IsQuiet(when: int, fingers: set<nat>, pointerDown: bool)
      reads this`lastGestureMode, this`quietTime
    {
      fingers != {} && (when < quietTime + config.quietInterval || EntersQuiet(|fingers|, pointerDown))
    }

    /** The start of the quiet time after a frame. */
    function NextQuiet(when: int, fingers: set<nat>, pointerDown: bool): int
      reads this`lastGestureMode, this`quietTime
    {
      if fingers == {} then LLONG_MIN
      else if IsQuiet(when, fingers, pointerDown) && when >= quietTime + config.quietInterval then when
      else quietTime
    }

    /** The only finger went up soon enough after it had gone down. */
    predicate Taps(when: int, lastFingers: set<nat>, g: Geometry)
      reads this`lastGestureMode, this`tapDownTime
    {
      (lastGestureMode == HOVER || lastGestureMode == TAP_DRAG) && |lastFingers| == 1
      && when <= tapDownTime + config.tapInterval && g.withinTapSlop
    }

    /** A finger goes down soon enough after a tap, or goes on dragging. */
    predicate Drags(when: int, g: Geometry)
      reads this`lastGestureMode, this`tapUpTime
    {
      lastGestureMode == TAP_DRAG
      || (lastGestureMode == TAP && when <= tapUpTime + config.tapDragInterval && g.withinTapSlop)
    }

    /** Fingers that are still landing start the gesture over. */
    predicate StartsOver(when: int, fingers: set<nat>, lastFingers: set<nat>, firstTouch: int)
      reads this`lastGestureMode
    {
      Stage(lastGestureMode) > 0 && when < firstTouch + config.settleInterval && |fingers| > |lastFingers|
    }

    /** Several fingers press first; they swipe once two of them move the same way, and otherwise each of
        them goes its own way.  A gesture only goes forward through these stages. */
    function Decided(mode: Mode, fingerCount: nat, g: Geometry): (decided: Mode)
      ensures Stage(decided) > 0 && Stage(decided) >= Stage(mode)
    {
      match mode
      case PRESS =>
        if g.farMovers < 2 then PRESS
        else if fingerCount > 2 || g.tooWideForSwipe then FREEFORM
        else if !g.bothMoved then PRESS
        else if g.sameDirection then SWIPE
        else FREEFORM
      case SWIPE => if fingerCount > 2 then FREEFORM else SWIPE
      case _ => FREEFORM
    }

    function DecideMany(when: int, fingers: set<nat>, lastFingers: set<nat>, g: Geometry, firstTouch: int): Decision
      reads this`lastGestureMode
    {
      var begins := Stage(lastGestureMode) == 0;
      var over := StartsOver(when, fingers, lastFingers, firstTouch);
      var start := if begins || over then PRESS else lastGestureMode;
      var mode := Decided(start, |fingers|, g);
      Decision(mode, over || (mode == FREEFORM && start != FREEFORM), begins)
    }

    function Decide(when: int, fingers: set<nat>, lastFingers: set<nat>, pointerDown: bool, g: Geometry): (d: Decision)
      reads this`lastGestureMode, this`quietTime, this`tapDownTime, this`tapUpTime, this`activeTouchId, this`firstTouchTime
      ensures lastGestureMode == d.mode == FREEFORM ==> !d.finish
    {
      if IsQuiet(when, fingers, pointerDown) then Decision(QUIET, false, lastGestureMode != QUIET)
      else if pointerDown then Decision(BUTTON_CLICK_OR_DRAG, false, lastGestureMode != BUTTON_CLICK_OR_DRAG)
      else if fingers == {} then Decision(if Taps(when, lastFingers, g) then TAP else NEUTRAL, false, lastGestureMode != NEUTRAL)
      else if |fingers| == 1 then
        Decision(if Drags(when, g) then TAP_DRAG else HOVER, false, !Drags(when, g) && lastGestureMode != HOVER)
      else DecideMany(when, fingers, lastFingers, g, FirstTouch(when, fingers))
    }

    /** What that means for the next mode, by the number of fingers. */
    lemma GestureRules(when: int, fingers: set<nat>, lastFingers: set<nat>, pointerDown: bool, g: Geometry)
      ensures var mode := Decide(when, fingers, lastFingers, pointerDown, g).mode;
              var several := lastGestureMode == PRESS || lastGestureMode == SWIPE || lastGestureMode == FREEFORM;
              var quietOver := when >= quietTime + config.quietInterval;
              && (fingers == {} && !pointerDown ==>
                    mode == if (lastGestureMode == HOVER || lastGestureMode == TAP_DRAG) && |lastFingers| == 1
                               && when <= tapDownTime + config.tapInterval && g.withinTapSlop then TAP else NEUTRAL)
              && (fingers != {} && !quietOver ==> mode == QUIET)
              && (pointerDown && (fingers == {} || (quietOver && (!several || |fingers| >= 2))) ==> mode == BUTTON_CLICK_OR_DRAG)
              && (|fingers| == 1 && quietOver && several ==> mode == QUIET)
              && (|fingers| == 1 && quietOver && !several && !pointerDown ==>
                    mode == if lastGestureMode == TAP_DRAG
                               || (lastGestureMode == TAP && when <= tapUpTime + config.tapDragInterval && g.withinTapSlop)
                            then TAP_DRAG else HOVER)
              && (|fingers| >= 2 && quietOver && !pointerDown ==>
                    if lastGestureMode == BUTTON_CLICK_OR_DRAG then mode == QUIET
                    else mode == PRESS || mode == SWIPE || mode == FREEFORM)
    {
    }

    /** The quiet time begins when a gesture of several fingers loses all but one of them, or a button is released
        over several fingers; it is over with the last finger. */
    lemma QuietRules(when: int, fingers: set<nat>, pointerDown: bool)
      ensures fingers == {} ==> NextQuiet(when, fingers, pointerDown) == LLONG_MIN
      ensures fingers != {} && when < quietTime + config.quietInterval ==> NextQuiet(when, fingers, pointerDown) == quietTime
      ensures fingers != {} && when >= quietTime + config.quietInterval ==>
                NextQuiet(when, fingers, pointerDown) ==
                if ((lastGestureMode == PRESS || lastGestureMode == SWIPE || lastGestureMode == FREEFORM) && |fingers| == 1)
                   || (lastGestureMode == BUTTON_CLICK_OR_DRAG && |fingers| >= 2 && !pointerDown)
                then when else quietTime
    {
    }

    /** A press becomes a swipe when just two fingers move the same way, a swipe lasts while there are two fingers,
        and what has become freeform remains so, unless fingers still landing start the gesture over. */
    lemma SeveralFingersRules(when: int, fingers: set<nat>, lastFingers: set<nat>, g: Geometry)
      requires |fingers| >= 2 && when >= quietTime + config.quietInterval && lastGestureMode != BUTTON_CLICK_OR_DRAG
      ensures var d, first := Decide(when, fingers, lastFingers, false, g), if activeTouchId < 0 then when else firstTouchTime;
              var several := lastGestureMode == PRESS || lastGestureMode == SWIPE || lastGestureMode == FREEFORM;
              var over := when < first + config.settleInterval && |fingers| > |lastFingers|;
              && (d.finish <==> !several)
              && (!several || over || lastGestureMode == PRESS ==>
                    d.mode == if g.farMovers < 2 then PRESS
                              else if |fingers| == 2 && !g.tooWideForSwipe && !g.bothMoved then PRESS
                              else if |fingers| == 2 && !g.tooWideForSwipe && g.sameDirection then SWIPE
                              else FREEFORM)
              && (several && !over && lastGestureMode == SWIPE ==> d.mode == if |fingers| == 2 then SWIPE else FREEFORM)
              && (several && !over && lastGestureMode == FREEFORM ==> d.mode == FREEFORM)
              && (d.cancel <==> (several && over) || (d.mode == FREEFORM && (lastGestureMode != FREEFORM || over)))
    {
    }

    /** A gesture that goes on is not finished, and is cancelled only for a finger that has landed. */
    lemma GoesOn(when: int, fingers: set<nat>, lastFingers: set<nat>, pointerDown: bool, g: Geometry)
      ensures var d := Decide(when, fingers, lastFingers, pointerDown, g);
              d.mode == lastGestureMode && d.mode != TAP && d.mode != NEUTRAL ==> !d.finish && (d.cancel ==> |fingers| > |lastFingers|)
    {
    }

    // ----- preparePointerGestures -----

    /** The timeout part of `preparePointerGestures`. */
    method PrepareTimeout(when: int, fingers: set<nat>) returns (send: bool, finish: bool)
      requires Valid(fingers)
      modifies this`currentGestureMode, this`currentGestureIdBits, this`activeGestureId
      ensures send ==> finish && Ready(fingers, fingers, freeformTouchToGestureIdMap[..], false, finish)
      ensures send ==> currentGestureMode == NEUTRAL && currentGestureIdBits == {}
      ensures send <==> lastGestureMode == TAP && when > tapUpTime + config.tapDragInterval
      ensures TapReady() || !send
      ensures !send ==> Valid(fingers)
    {
      send, finish := false, false;
      if lastGestureMode == TAP {
        if when > tapUpTime + config.tapDragInterval {
          finish := true;
          ReportNone(NEUTRAL);
          send := true;
        }
      }
    }

    /** The active touch stays the same while its finger is down; then another finger takes over. */
    method PickActiveTouch(when: int, fingers: set<nat>)
      modifies this`activeTouchId, this`firstTouchTime
      ensures if fingers == {} then activeTouchId < 0 else activeTouchId >= 0 && activeTouchId in fingers
      ensures fingers != {} ==> activeTouchId == if old(activeTouchId) >= 0 && old(activeTouchId) in fingers
                                                 then old(activeTouchId) else FirstMarked(fingers)
      ensures firstTouchTime == old(FirstTouch(when, fingers))
    {
      if activeTouchId < 0 {
        if fingers != {} {
          activeTouchId := FirstMarked(fingers);
          firstTouchTime := when;
        }
      } else if activeTouchId !in fingers {
        if fingers != {} {
          activeTouchId := FirstMarked(fingers);
        } else {
          activeTouchId := -1;
        }
      }
    }

    /** Whether the gesture is in its quiet time. */
    method CheckQuietTime(when: int, fingers: set<nat>, pointerDown: bool) returns (isQuietTime: bool)
      requires fingers != {} <==> activeTouchId >= 0
      modifies this`quietTime
      ensures isQuietTime == old(IsQuiet(when, fingers, pointerDown))
      ensures quietTime == old(NextQuiet(when, fingers, pointerDown))
    {
      var fingerCount := |fingers|;
      isQuietTime := false;
      if activeTouchId < 0 {
        quietTime := LLONG_MIN;
      } else {
        isQuietTime := when < quietTime + config.quietInterval;
        if !isQuietTime {
          if (lastGestureMode == PRESS || lastGestureMode == SWIPE || lastGestureMode == FREEFORM) && fingerCount < 2 {
            isQuietTime := true;
          } else if lastGestureMode == BUTTON_CLICK_OR_DRAG && fingerCount >= 2 && !pointerDown {
            isQuietTime := true;
          }
          if isQuietTime {
            quietTime := when;
          }
        }
      }
    }

    /** Case 2: the button is pressed and the pointer follows the active finger. */
    method PrepareButton(fingers: set<nat>, lastFingers: set<nat>, g: Geometry) returns (finish: bool)
      requires Valid(lastFingers) && (activeTouchId >= 0 ==> activeTouchId in fingers)
      modifies this`activeTouchId, this`activeGestureId, this`currentGestureMode, this`currentGestureIdBits
      ensures Ready(fingers, lastFingers, freeformTouchToGestureIdMap[..], false, finish)
      ensures currentGestureMode == BUTTON_CLICK_OR_DRAG && (finish <==> lastGestureMode != BUTTON_CLICK_OR_DRAG)
      ensures activeTouchId == if old(activeTouchId) >= 0 && |fingers| > 1 && g.fastest * fingers != {}
                               then FirstMarked(g.fastest * fingers) else old(activeTouchId)
    {
      finish := false;
      if lastGestureMode != BUTTON_CLICK_OR_DRAG {
        finish := true;
        activeGestureId := 0;
      }
      if activeTouchId >= 0 && |fingers| > 1 {
        var best := g.fastest * fingers;
        if best != {} {
          activeTouchId := FirstMarked(best);
        }
      }
      ReportOne(BUTTON_CLICK_OR_DRAG);
    }

    /** Case 3: all fingers are gone, and so is the button. */
    method PrepareNoFingers(when: int, lastFingers: set<nat>, g: Geometry) returns (finish: bool)
      requires Valid(lastFingers)
      modifies this`tapUpTime, this`activeGestureId, this`currentGestureMode, this`currentGestureIdBits
      ensures Ready({}, lastFingers, freeformTouchToGestureIdMap[..], false, finish)
      ensures Decision(currentGestureMode, false, finish)
              == Decision(if old(Taps(when, lastFingers, g)) then TAP else NEUTRAL, false, lastGestureMode != NEUTRAL)
      ensures tapUpTime == if currentGestureMode == TAP then when else old(tapUpTime)
    {
      finish := lastGestureMode != NEUTRAL;
      if (lastGestureMode == HOVER || lastGestureMode == TAP_DRAG) && |lastFingers| == 1
         && when <= tapDownTime + config.tapInterval && g.withinTapSlop {
        tapUpTime := when;
        activeGestureId := 0;
        ReportOne(TAP);
      } else {
        ReportNone(NEUTRAL);
      }
    }

    /** Case 4: a single finger without the button. */
    method PrepareOneFinger(when: int, fingers: set<nat>, lastFingers: set<nat>, g: Geometry) returns (finish: bool)
      requires Valid(lastFingers)
      modifies this`tapUpTime, this`tapDownTime, this`activeGestureId, this`currentGestureMode, this`currentGestureIdBits, this`sinceDown
      ensures Ready(fingers, lastFingers, freeformTouchToGestureIdMap[..], false, finish)
      ensures Decision(currentGestureMode, false, finish)
              == var drags := old(Drags(when, g)); Decision(if drags then TAP_DRAG else HOVER, false, !drags && lastGestureMode != HOVER)
      ensures if lastFingers == {} && fingers != {} then tapDownTime == when && tapUpTime == LLONG_MIN && sinceDown == []
              else tapDownTime == old(tapDownTime) && tapUpTime == old(tapUpTime) && sinceDown == old(sinceDown)
    {
      finish := false;
      var mode := HOVER;
      if lastGestureMode == TAP {
        if when <= tapUpTime + config.tapDragInterval && g.withinTapSlop {
          mode := TAP_DRAG;
        }
      } else if lastGestureMode == TAP_DRAG {
        mode := TAP_DRAG;
      }
      if mode != TAP_DRAG {
        if lastGestureMode != HOVER {
          finish := true;
        }
        activeGestureId := 0;
      }
      ReportOne(mode);
      if lastFingers == {} && fingers != {} {
        ResetTap();
        tapDownTime := when;
        sinceDown := [];
      }
    }

    /** Whether the finger that drove the active gesture pointer went up. */
    method ActiveWentUp(upTouchIds: set<nat>) returns (wentUp: bool)
      requires Below(upTouchIds, freeformTouchToGestureIdMap.Length)
      ensures !wentUp <==> forall t :: t in upTouchIds ==> freeformTouchToGestureIdMap[t] != activeGestureId
    {
      wentUp := false;
      var rest := upTouchIds;
      while rest != {}
        invariant rest <= upTouchIds && !wentUp
        invariant forall t :: t in upTouchIds && t !in rest ==> freeformTouchToGestureIdMap[t] != activeGestureId
        decreases |rest|
      {
        var upTouchId := FirstMarked(rest);
        rest := rest - {upTouchId};
        if freeformTouchToGestureIdMap[upTouchId] == activeGestureId {
          wentUp := true;
          break;
        }
      }
    }

    /** The freeform part of case 5: every finger drives a gesture pointer of its own.  A finger that was
        mapped in the frame before keeps its pointer. */
    method AssignFreeform(fingers: set<nat>, lastFingers: set<nat>, cancel: bool)
      requires freeformTouchToGestureIdMap.Length == MAX_POINTER_ID + 1
      requires |fingers| >= 2 && Below(fingers, MAX_POINTER_ID + 1) && |fingers| <= MAX_POINTERS && |lastFingers| <= MAX_POINTERS
      requires lastGestureMode == FREEFORM ==> Maps(freeformTouchToGestureIdMap[..], lastFingers, lastGestureIdBits)
      requires lastGestureMode == FREEFORM ==>
                 (exists id :: id in lastGestureIdBits && id == activeGestureId) || (activeGestureId == 0 && !(fingers <= lastFingers))
      requires lastGestureMode != FREEFORM ==> 0 <= activeGestureId <= MAX_POINTER_ID && activeTouchId >= 0 && activeTouchId in fingers
      modifies this`activeGestureId, this`currentGestureMode, this`currentGestureIdBits, freeformTouchToGestureIdMap
      ensures currentGestureMode == FREEFORM
      ensures Maps(freeformTouchToGestureIdMap[..], fingers, currentGestureIdBits)
      ensures exists id :: id in currentGestureIdBits && id == activeGestureId
      ensures lastGestureMode == FREEFORM ==>
                Continues(old(freeformTouchToGestureIdMap[..]), lastFingers, lastGestureIdBits, freeformTouchToGestureIdMap[..], fingers)
    {
      currentGestureMode := FREEFORM;
      if lastGestureMode != FREEFORM {
        StartFreeform(fingers, cancel);
      } else {
        ContinueFreeform(fingers, lastFingers);
      }
    }

    /** Initially the active gesture id goes to the active finger, unless the gesture before was cancelled. */
    method StartFreeform(fingers: set<nat>, cancel: bool)
      requires freeformTouchToGestureIdMap.Length == MAX_POINTER_ID + 1
      requires |fingers| >= 2 && Below(fingers, MAX_POINTER_ID + 1) && |fingers| <= MAX_POINTERS
      requires 0 <= activeGestureId <= MAX_POINTER_ID && activeTouchId >= 0 && activeTouchId in fingers
      modifies this`activeGestureId, this`currentGestureIdBits, freeformTouchToGestureIdMap
      ensures Maps(freeformTouchToGestureIdMap[..], fingers, currentGestureIdBits)
      ensures exists id :: id in currentGestureIdBits && id == activeGestureId
    {
      var mapped: set<nat> := {};
      var used: set<nat> := {};
      if !cancel {
        mapped := {activeTouchId};
        used := {activeGestureId};
        freeformTouchToGestureIdMap[activeTouchId] := activeGestureId;
      } else {
        activeGestureId := -1;
      }
      currentGestureIdBits := MapFingers(freeformTouchToGestureIdMap, fingers, mapped, used);
      if activeGestureId < 0 {
        SomeId(freeformTouchToGestureIdMap[..], fingers);
        activeGestureId := FirstMarked(currentGestureIdBits);
      } else {
        InImage(freeformTouchToGestureIdMap[..], fingers, activeTouchId);
      }
    }

    /** Otherwise all mappings that still apply are reused, and a new active gesture id is chosen if its
        finger went up. */
    method ContinueFreeform(fingers: set<nat>, lastFingers: set<nat>)
      requires freeformTouchToGestureIdMap.Length == MAX_POINTER_ID + 1
      requires |fingers| >= 2 && Below(fingers, MAX_POINTER_ID + 1) && |fingers| <= MAX_POINTERS && |lastFingers| <= MAX_POINTERS
      requires Maps(freeformTouchToGestureIdMap[..], lastFingers, lastGestureIdBits)
      requires (exists id :: id in lastGestureIdBits && id == activeGestureId) || (activeGestureId == 0 && !(fingers <= lastFingers))
      modifies this`activeGestureId, this`currentGestureIdBits, freeformTouchToGestureIdMap
      ensures Maps(freeformTouchToGestureIdMap[..], fingers, currentGestureIdBits)
      ensures exists id :: id in currentGestureIdBits && id == activeGestureId
      ensures Continues(old(freeformTouchToGestureIdMap[..]), lastFingers, lastGestureIdBits, freeformTouchToGestureIdMap[..], fingers)
    {
      ghost var table := freeformTouchToGestureIdMap[..];
      ghost var active := activeGestureId;
      ImageSize(table, lastFingers);
      if !(fingers <= lastFingers) {
        ghost var t :| t in fingers && t !in lastFingers;
        assert t in fingers - lastFingers * fingers;
      }
      var wentUp := ActiveWentUp(lastFingers - fingers);
      if wentUp {
        activeGestureId := -1;
      }
      currentGestureIdBits := MapFingers(freeformTouchToGestureIdMap, fingers, lastFingers * fingers, lastGestureIdBits);
      if activeGestureId < 0 {
        SomeId(freeformTouchToGestureIdMap[..], fingers);
        activeGestureId := FirstMarked(currentGestureIdBits);
      } else {
        ActiveRemains(table, lastFingers, lastGestureIdBits, freeformTouchToGestureIdMap[..], fingers, currentGestureIdBits, active);
      }
    }

    /** Case 5: several fingers without the button. */
    method PrepareManyFingers(when: int, fingers: set<nat>, lastFingers: set<nat>, g: Geometry) returns (cancel: bool, finish: bool)
      requires Valid(lastFingers)
      requires |fingers| >= 2 && Below(fingers, MAX_POINTER_ID + 1) && |fingers| <= MAX_POINTERS
      requires activeTouchId >= 0 && activeTouchId in fingers
      modifies this`activeGestureId, this`currentGestureMode, this`currentGestureIdBits, freeformTouchToGestureIdMap
      ensures Ready(fingers, lastFingers, old(freeformTouchToGestureIdMap[..]), cancel, finish)
      ensures Decision(currentGestureMode, cancel, finish) == old(DecideMany(when, fingers, lastFingers, g, firstTouchTime))
    {
      cancel, finish := false, false;
      var mode := PRESS;
      var settled := when >= firstTouchTime + config.settleInterval;
      if lastGestureMode != PRESS && lastGestureMode != SWIPE && lastGestureMode != FREEFORM {
        finish := true;
      } else if !settled && |fingers| > |lastFingers| {
        cancel := true;
        NewFinger(fingers, lastFingers);
      } else {
        mode := lastGestureMode;
      }
      if finish || cancel {
        mode := PRESS;
        activeGestureId := 0;
      }
      if mode == PRESS {
        if g.farMovers >= 2 {
          if |fingers| > 2 || g.tooWideForSwipe {
            cancel := true;
            mode := FREEFORM;
          } else if g.bothMoved {
            if g.sameDirection {
              mode := SWIPE;
            } else {
              cancel := true;
              mode := FREEFORM;
            }
          }
        }
      } else if mode == SWIPE {
        if |fingers| > 2 {
          cancel := true;
          mode := FREEFORM;
        }
      }
      if mode == FREEFORM {
        AssignFreeform(fingers, lastFingers, cancel);
      } else {
        ReportOne(mode);
      }
    }

    /** What is decided before the cases: no tap comes out of the last gesture unless it has one finger, the
        active finger is picked, and quiet time is checked. */
    method PrepareCase(when: int, fingers: set<nat>, lastFingers: set<nat>, pointerDown: bool) returns (isQuietTime: bool)
      requires Valid(lastFingers)
      modifies this`tapDownTime, this`tapUpTime, this`activeTouchId, this`firstTouchTime, this`quietTime
      ensures Valid(lastFingers) && TapReady()
      ensures isQuietTime == old(IsQuiet(when, fingers, pointerDown))
      ensures if LeadsToTap(lastGestureMode) then tapDownTime == old(tapDownTime) && tapUpTime == old(tapUpTime)
              else tapDownTime == tapUpTime == LLONG_MIN
      ensures if fingers == {} then activeTouchId < 0 else activeTouchId >= 0 && activeTouchId in fingers
      ensures firstTouchTime == old(FirstTouch(when, fingers)) && quietTime == old(NextQuiet(when, fingers, pointerDown))
    {
      hide ModeFits;
      if lastGestureMode != HOVER && lastGestureMode != TAP && lastGestureMode != TAP_DRAG {
        ResetTap();
      }
      PickActiveTouch(when, fingers);
      isQuietTime := CheckQuietTime(when, fingers, pointerDown);
    }

    /** Case 1: quiet time. */
    method PrepareQuiet(fingers: set<nat>, lastFingers: set<nat>) returns (finish: bool)
      requires Valid(lastFingers)
      modifies this`activeGestureId, this`currentGestureMode, this`currentGestureIdBits
      ensures Ready(fingers, lastFingers, freeformTouchToGestureIdMap[..], false, finish)
      ensures currentGestureMode == QUIET && finish == (lastGestureMode != QUIET)
    {
      finish := lastGestureMode != QUIET;
      ReportNone(QUIET);
    }

    /** `preparePointerGestures` for a frame.  A tap is reported only for a finger that went down at most a tap
        interval ago, and since when there have been no gestures but those of one finger. */
    method Prepare(when: int, fingers: set<nat>, lastFingers: set<nat>, pointerDown: bool, g: Geometry) returns (cancel: bool, finish: bool)
      requires Valid(lastFingers)
      requires Below(fingers, MAX_POINTER_ID + 1) && |fingers| <= MAX_POINTERS
      modifies this, freeformTouchToGestureIdMap
      ensures Ready(fingers, lastFingers, old(freeformTouchToGestureIdMap[..]), cancel, finish)
      ensures lastGestureMode == old(lastGestureMode) && lastGestureIdBits == old(lastGestureIdBits)
      ensures Decision(currentGestureMode, cancel, finish) == old(Decide(when, fingers, lastFingers, pointerDown, g))
      ensures quietTime == old(NextQuiet(when, fingers, pointerDown))
      ensures TapReady()
      ensures currentGestureMode == TAP && when > LLONG_MIN + config.tapInterval ==>
                when <= old(tapDownTime) + config.tapInterval && forall m :: m in old(sinceDown) ==> LeadsToTap(m)
    {
      hide Maps, Continues, ModeFits, Ready, Decided, Valid;
      var isQuietTime := PrepareCase(when, fingers, lastFingers, pointerDown);
      cancel := false;
      if isQuietTime {
        finish := PrepareQuiet(fingers, lastFingers);
      } else if pointerDown {
        finish := PrepareButton(fingers, lastFingers, g);
      } else if |fingers| == 0 {
        finish := PrepareNoFingers(when, lastFingers, g);
      } else if |fingers| == 1 {
        finish := PrepareOneFinger(when, fingers, lastFingers, g);
      } else {
        cancel, finish := PrepareManyFingers(when, fingers, lastFingers, g);
      }
    }

    /** The last part of `dispatchPointerGestures`. */
    method Advance(fingers: set<nat>)
      requires freeformTouchToGestureIdMap.Length == MAX_POINTER_ID + 1 && |fingers| <= MAX_POINTERS
      requires ModeFits(currentGestureMode, HeldIds(currentGestureMode, currentGestureIdBits), activeGestureId,
                        freeformTouchToGestureIdMap[..], fingers)
      requires TapReady()
      modifies this`lastGestureMode, this`lastGestureIdBits, this`sinceDown
      ensures Valid(fingers) && sinceDown == old(sinceDown) + [currentGestureMode]
      ensures lastGestureMode == currentGestureMode && lastGestureIdBits == HeldIds(currentGestureMode, currentGestureIdBits)
    {
      lastGestureMode := currentGestureMode;
      sinceDown := sinceDown + [currentGestureMode];
      if !HoldsDown(currentGestureMode) {
        lastGestureIdBits := {};
      } else {
        lastGestureIdBits := currentGestureIdBits;
      }
    }
  }

  lemma InImage(table: seq<nat>, fingers: set<nat>, t: nat)
    requires Below(fingers, |table|) && t in fingers
    ensures table[t] in Image(table, fingers)
  {
  }

  lemma SomeId(table: seq<nat>, fingers: set<nat>)
    requires Below(fingers, |table|) && fingers != {}
    ensures Image(table, fingers) != {}
  {
    var t :| t in fingers;
    InImage(table, fingers, t);
  }

  lemma NewFinger(fingers: set<nat>, lastFingers: set<nat>)
    requires |fingers| > |lastFingers|
    ensures !(fingers <= lastFingers)
  {
    if fingers <= lastFingers {
      SubsetSize(fingers, lastFingers);
    }
  }

  /** The active gesture pointer of the frame before is still there when its finger is, and id 0 is there
      when it was free and a finger is new. */
  lemma ActiveRemains(table0: seq<nat>, fingers0: set<nat>, ids0: set<nat>, table: seq<nat>, fingers: set<nat>, ids: set<nat>, active: int)
    requires Maps(table0, fingers0, ids0) && Maps(table, fingers, ids) && |table| == |table0|
    requires Continues(table0, fingers0, ids0, table, fingers)
    requires forall t :: t in fingers0 - fingers ==> table0[t] != active
    requires (exists id :: id in ids0 && id == active) || (active == 0 && exists id :: id in ids && IsFirstUnmarked(ids0, id))
    ensures exists id :: id in ids && id == active
  {
    if id :| id in ids0 && id == active {
      var t :| t in fingers0 && table0[t] == id;
      assert t in fingers0 - fingers || t in fingers;
      assert table[t] in Image(table, fingers);
    } else {
      var id :| id in ids && IsFirstUnmarked(ids0, id);
      if 0 !in ids0 {
        assert id == 0;
      }
    }
  }

  // ----- the mapper in pointer mode -----

  /** The part of a cooked state that pointer mode looks at. */
  datatype PointerFrame = PointerFrame(
    touchingIdBits: set<nat>, hoveringIdBits: set<nat>,
    fingerIdBits: set<nat>, stylusIdBits: set<nat>, mouseIdBits: set<nat>, buttonState: set<nat>)

  const NO_FRAME: PointerFrame := PointerFrame({}, {}, {}, {}, {}, {})

  /** The gesture frame as the listener will see it. */
  ghost function PlanOf(lastMode: Mode, lastIds: set<nat>, mode: Mode, ids: set<nat>, cancel: bool, finish: bool, moved: bool): Plan {
    Plan(lastIds, ids, HoldsDown(mode), mode == HOVER, cancel && !finish, finish, moved)
  }

  /** All fingers of a freeform gesture are replaced by others in one frame, while the reported buttons
      change and the gesture goes on without starting over. */
  predicate AllFingersReplaced(from: PointerFrame, lastMode: Mode, to: PointerFrame, d: Decision) {
    && lastMode == FREEFORM && d.mode == FREEFORM && !d.cancel
    && to.fingerIdBits * from.fingerIdBits == {} && to.buttonState != from.buttonState
  }

  /** The gesture pointers move: the gesture goes on, and a pointer that stays has a new sample or the
      buttons have changed. */
  predicate Moves(d: Decision, lastIds: set<nat>, ids: set<nat>, samplesMoved: bool, buttonsChanged: bool) {
    HoldsDown(d.mode) && !d.cancel && !d.finish && lastIds != {} && ids != {}
    && ((samplesMoved && lastIds * ids != {}) || buttonsChanged)
  }

  /** The tool that now drives the pointer; with no tool in sight it stays as it was. */
  function ChosenUsage(frame: PointerFrame, pointerDown: bool, usage: Usage): Usage {
    if frame.stylusIdBits != {} then StylusUsage
    else if frame.mouseIdBits != {} then MouseUsage
    else if frame.fingerIdBits != {} || pointerDown then Gestures
    else usage
  }

  lemma UsageIs(frame: PointerFrame, pointerDown: bool, usage: Usage)
    ensures ChosenUsage(frame, pointerDown, usage)
            == if frame.stylusIdBits != {} then StylusUsage
               else if frame.mouseIdBits != {} then MouseUsage
               else if frame.fingerIdBits != {} || pointerDown then Gestures
               else usage
  {
  }

  class PointerModeMapper {
    var outbox: seq<Event>
    const gesture: PointerGesture
    var usage: Usage
    var simpleDown: bool
    var simpleHovering: bool
    var last: PointerFrame
    var current: PointerFrame

    /** A move of no pointers has been sent. */
    ghost var sentEmptyMove: bool

    ghost function Known(): Listener
      reads this`simpleDown, this`simpleHovering, gesture`lastGestureIdBits
    {
      Listener(gesture.lastGestureIdBits, simpleDown, simpleHovering)
    }

    /** The listener knows the gesture pointers and the simple pointer, the two streams are never active at
        once, and the stream is well formed unless a move of no pointers was sent. */
    ghost predicate Valid()
      reads this`last, this`current, this`usage, this`simpleDown, this`simpleHovering, this`outbox, this`sentEmptyMove,
            gesture`lastGestureMode, gesture`lastGestureIdBits, gesture`activeGestureId, gesture`sinceDown, gesture`tapDownTime,
            gesture.freeformTouchToGestureIdMap
    {
      && gesture.Valid(last.fingerIdBits)
      && (usage != Gestures ==> gesture.lastGestureMode == NEUTRAL)
      && (usage == Gestures || usage == NoUsage ==> !simpleDown && !simpleHovering)
      && !(simpleDown && simpleHovering)
      && Replay(NOTHING, outbox) == Known()
      && (AllLegal(NOTHING, outbox) <==> !sentEmptyMove)
      && Below(last.fingerIdBits, MAX_POINTER_ID + 1) && current == last
    }

    constructor (config: Config)
      ensures Valid() && outbox == [] && usage == NoUsage && !sentEmptyMove && last == NO_FRAME
      ensures fresh(gesture) && fresh(gesture.freeformTouchToGestureIdMap) && gesture.config == config
      ensures gesture.lastGestureMode == NEUTRAL && gesture.quietTime == LLONG_MIN
    {
      outbox, usage, simpleDown, simpleHovering := [], NoUsage, false, false;
      last, current, sentEmptyMove := NO_FRAME, NO_FRAME, false;
      gesture := new PointerGesture(config);
    }

    // ----- events -----

    /** `dispatchMotion` for a set of gesture pointers, ids only. */
    method Send(action: GestureAction, ids: set<nat>)
      modifies this`outbox
      ensures outbox == old(outbox) + [Gesture(action, Ascending(ids))]
    {
      var order := Order(ids);
      outbox := outbox + [Gesture(action, order)];
    }

    static method Order(ids: set<nat>) returns (order: seq<nat>)
      ensures order == Ascending(ids)
    {
      order := [];
      var rest := ids;
      while rest != {}
        invariant rest <= ids && Increasing(order)
        invariant forall x :: x in ids <==> x in rest || x in order
        invariant forall k, x :: 0 <= k < |order| && x in rest ==> order[k] < x
        decreases |rest|
      {
        var id := FirstMarked(rest);
        rest := rest - {id};
        order := order + [id];
      }
      ListsOnce(ids, order, Ascending(ids));
    }

    /** `dispatchMotion` for one pointer: its index is its place among the ids. */
    method SendOne(down: bool, ids: set<nat>, id: nat)
      requires id in ids
      modifies this`outbox
      ensures outbox == old(outbox) + [if down then DownEvent(ids, id) else UpEvent(ids, id)]
    {
      var order := Order(ids);
      var index: nat := 0;
      assert id in order;
      while order[index] != id
        invariant index < |order| && id !in order[..index]
      {
        assert order[..index + 1] == order[..index] + [order[index]];
        assert order[index..] == [order[index]] + order[index + 1..] && order == order[..index] + order[index..];
        index := index + 1;
      }
      assert IndexIn(order, id) == index;
      var action := if down then (if |order| == 1 then Down else PointerDown(index))
                    else if |order| == 1 then Up else PointerUp(index);
      outbox := outbox + [Gesture(action, order)];
    }

    method SendUps(upIdBits: set<nat>, lastIdBits: set<nat>)
      requires upIdBits <= lastIdBits
      modifies this`outbox
      ensures outbox == old(outbox) + UpEvents(upIdBits, lastIdBits)
    {
      var up, dispatched := upIdBits, lastIdBits;
      while up != {}
        invariant up <= dispatched
        invariant outbox + UpEvents(up, dispatched) == old(outbox) + UpEvents(upIdBits, lastIdBits)
        decreases |up|
      {
        var id := FirstMarked(up);
        AppendOne(outbox, UpEvent(dispatched, id), UpEvents(up - {id}, dispatched - {id}));
        up := up - {id};
        SendOne(false, dispatched, id);
        dispatched := dispatched - {id};
      }
    }

    method SendDowns(downIdBits: set<nat>, startIdBits: set<nat>)
      modifies this`outbox
      ensures outbox == old(outbox) + DownEvents(downIdBits, startIdBits)
    {
      var down, dispatched := downIdBits, startIdBits;
      while down != {}
        invariant outbox + DownEvents(down, dispatched) == old(outbox) + DownEvents(downIdBits, startIdBits)
        decreases |down|
      {
        var id := FirstMarked(down);
        AppendOne(outbox, DownEvent(dispatched + {id}, id), DownEvents(down - {id}, dispatched + {id}));
        down := down - {id};
        dispatched := dispatched + {id};
        SendOne(true, dispatched, id);
      }
    }

    // ----- gestures -----

    /** The sending part of `dispatchPointerGestures`. */
    method SendGesture(ghost p: Plan, cancel: bool, finish: bool, moveNeeded: bool)
      requires Prepared(p) && p.cancel == cancel && p.finish == finish && p.move == moveNeeded
      requires p.last == gesture.lastGestureIdBits && p.current == gesture.currentGestureIdBits
      requires p.down == HoldsDown(gesture.currentGestureMode) && p.hover == (gesture.currentGestureMode == HOVER)
      modifies this`outbox
      ensures outbox == old(outbox) + GestureEvents(p)
    {
      hide UpEvents, DownEvents, Ascending;
      ghost var sent := outbox;
      ghost var move := if p.move then [Gesture(Move, Ascending(Kept(p)))] else [];
      ghost var downs := if p.down then DownEvents(p.current - Kept(p), Kept(p)) else [];
      var dispatchedGestureIdBits := gesture.lastGestureIdBits;
      if dispatchedGestureIdBits != {} {
        if cancel {
          Send(Cancel, dispatchedGestureIdBits);
          dispatchedGestureIdBits := {};
        } else {
          var up := if finish then dispatchedGestureIdBits else dispatchedGestureIdBits - gesture.currentGestureIdBits;
          assert up == p.last - Kept(p);
          SendUps(up, dispatchedGestureIdBits);
          dispatchedGestureIdBits := dispatchedGestureIdBits - up;
        }
      }
      assert dispatchedGestureIdBits == Kept(p);
      assert outbox == sent + LeavingEvents(p);
      if moveNeeded {
        Send(Move, dispatchedGestureIdBits);
      }
      if HoldsDown(gesture.currentGestureMode) {
        SendDowns(gesture.currentGestureIdBits - dispatchedGestureIdBits, dispatchedGestureIdBits);
        dispatchedGestureIdBits := dispatchedGestureIdBits + gesture.currentGestureIdBits;
      }
      assert outbox == sent + LeavingEvents(p) + move + downs;
      if gesture.currentGestureMode == HOVER {
        Send(HoverMove, gesture.currentGestureIdBits);
      } else if dispatchedGestureIdBits == {} && gesture.lastGestureIdBits != {} {
        outbox := outbox + [Gesture(HoverMove, [0])];
      }
      AppendFour(sent, LeavingEvents(p), move, downs, HoverEvents(p));
    }

    /** The events of a gesture frame reach the listener. */
    method SendFrame(ghost p: Plan, cancel: bool, finish: bool, moveNeeded: bool)
      requires Prepared(p) && p.cancel == cancel && p.finish == finish && p.move == moveNeeded
      requires p.last == gesture.lastGestureIdBits && p.current == gesture.currentGestureIdBits
      requires p.down == HoldsDown(gesture.currentGestureMode) && p.hover == (gesture.currentGestureMode == HOVER)
      requires Replay(NOTHING, outbox) == Listener(p.last, false, false)
      modifies this`outbox
      ensures outbox == old(outbox) + GestureEvents(p)
      ensures Replay(NOTHING, outbox) == Listener(if p.down then p.current else {}, false, false)
      ensures AllLegal(NOTHING, outbox) <==> old(AllLegal(NOTHING, outbox)) && !(p.move && p.last * p.current == {})
    {
      hide Prepared, GestureEvents, Replay, AllLegal;
      ghost var sent := outbox;
      SendGesture(p, cancel, finish, moveNeeded);
      GestureFrame(p);
      ReplayConcat(NOTHING, sent, GestureEvents(p));
    }

    /** What holds of the mapper while a frame is being dispatched. */
    ghost predicate InFrame()
      reads this`last, this`current, this`usage, this`simpleDown, this`simpleHovering, this`outbox, this`sentEmptyMove,
            gesture`lastGestureMode, gesture`lastGestureIdBits, gesture`activeGestureId, gesture`sinceDown, gesture`tapDownTime,
            gesture.freeformTouchToGestureIdMap
    {
      && gesture.Valid(last.fingerIdBits)
      && (usage != Gestures ==> gesture.lastGestureMode == NEUTRAL)
      && (usage == Gestures || usage == NoUsage ==> !simpleDown && !simpleHovering)
      && !(simpleDown && simpleHovering)
      && Replay(NOTHING, outbox) == Known()
      && (AllLegal(NOTHING, outbox) <==> !sentEmptyMove)
      && Below(current.fingerIdBits, MAX_POINTER_ID + 1) && |current.fingerIdBits| <= MAX_POINTERS
    }

    /** `dispatchPointerGestures`.  A move of no pointers is sent exactly when all fingers of a running
        freeform gesture are replaced while the buttons change. */
    method DispatchPointerGestures(when: int, pointerDown: bool, g: Geometry)
      requires InFrame() && usage == Gestures
      modifies this`outbox, this`sentEmptyMove, gesture, gesture.freeformTouchToGestureIdMap
      ensures gesture.Valid(current.fingerIdBits)
      ensures Replay(NOTHING, outbox) == Known() && (AllLegal(NOTHING, outbox) <==> !sentEmptyMove)
      ensures var d := old(gesture.Decide(when, current.fingerIdBits, last.fingerIdBits, pointerDown, g));
              var ids := gesture.currentGestureIdBits;
              && gesture.lastGestureMode == d.mode && gesture.lastGestureIdBits == HeldIds(d.mode, ids)
              && outbox == old(outbox) + GestureEvents(PlanOf(
                   old(gesture.lastGestureMode), old(gesture.lastGestureIdBits), d.mode, ids, d.cancel, d.finish,
                   Moves(d, old(gesture.lastGestureIdBits), ids, g.samplesMoved, current.buttonState != last.buttonState)))
      ensures sentEmptyMove == (old(sentEmptyMove)
                || AllFingersReplaced(last, old(gesture.lastGestureMode), current,
                     old(gesture.Decide(when, current.fingerIdBits, last.fingerIdBits, pointerDown, g))))
      ensures gesture.lastGestureIdBits == {} <==>
                gesture.lastGestureMode == NEUTRAL || gesture.lastGestureMode == QUIET || gesture.lastGestureMode == HOVER
      ensures var kept := old(gesture.lastGestureIdBits) * gesture.lastGestureIdBits;
              var changed := g.samplesMoved || current.buttonState != last.buttonState;
              && (forall e :: Sends(old(outbox), outbox, e) && IsMove(e) ==> changed && e == Gesture(Move, Ascending(kept)))
              && (var d := old(gesture.Decide(when, current.fingerIdBits, last.fingerIdBits, pointerDown, g));
                  !d.cancel && !d.finish && kept != {} && changed ==> Sends(old(outbox), outbox, Gesture(Move, Ascending(kept))))
              && (gesture.lastGestureMode == old(gesture.lastGestureMode) != TAP
                  && |current.fingerIdBits| <= |last.fingerIdBits| && kept != {} && changed ==>
                    Sends(old(outbox), outbox, Gesture(Move, Ascending(kept))))
              && (gesture.lastGestureMode == HOVER ==> Sends(old(outbox), outbox, Gesture(HoverMove, Ascending(gesture.currentGestureIdBits))))
      ensures gesture.quietTime == old(gesture.NextQuiet(when, current.fingerIdBits, pointerDown))
    {
      hide PlanOf, Moves, GestureEvents, Replay, AllLegal, AllFingersReplaced, PointerGesture.Decide, PointerGesture.NextQuiet, ModeFits,
           PointerGesture.Ready, PointerGesture.TapReady;
      ghost var d := gesture.Decide(when, current.fingerIdBits, last.fingerIdBits, pointerDown, g);
      ghost var sent, lastMode, lastIds := outbox, gesture.lastGestureMode, gesture.lastGestureIdBits;
      gesture.GoesOn(when, current.fingerIdBits, last.fingerIdBits, pointerDown, g);
      LastFits();
      ghost var table0, active0 := gesture.freeformTouchToGestureIdMap[..], gesture.activeGestureId;
      var cancel, finish := gesture.Prepare(when, current.fingerIdBits, last.fingerIdBits, pointerDown, g);
      ReadyFits(gesture, current.fingerIdBits, last.fingerIdBits, table0, cancel, finish);
      SendPrepared(cancel, finish, g.samplesMoved, table0, active0);
      gesture.Advance(current.fingerIdBits);
      WhatIsSent(sent, outbox, lastMode, lastIds, gesture.currentGestureIdBits, d, g.samplesMoved, current.buttonState != last.buttonState);
      HoldsSomething(gesture.lastGestureMode, gesture.lastGestureIdBits, gesture.activeGestureId,
                     gesture.freeformTouchToGestureIdMap[..], current.fingerIdBits);
    }

    /** The part of `dispatchPointerGestures` between the preparation and its end. */
    method SendPrepared(cancel: bool, finish: bool, samplesMoved: bool, ghost table0: seq<nat>, ghost active0: int)
      requires gesture.Ready(current.fingerIdBits, last.fingerIdBits, table0, cancel, finish)
      requires ModeFits(gesture.lastGestureMode, gesture.lastGestureIdBits, active0, table0, last.fingerIdBits)
      requires gesture.lastGestureMode == gesture.currentGestureMode == FREEFORM ==> !finish
      requires Replay(NOTHING, outbox) == Listener(gesture.lastGestureIdBits, false, false)
      requires AllLegal(NOTHING, outbox) <==> !sentEmptyMove
      modifies this`outbox, this`sentEmptyMove
      ensures var d, ids := Decision(gesture.currentGestureMode, cancel, finish), gesture.currentGestureIdBits;
              && outbox == old(outbox) + GestureEvents(PlanOf(
                   gesture.lastGestureMode, gesture.lastGestureIdBits, d.mode, ids, cancel, finish,
                   Moves(d, gesture.lastGestureIdBits, ids, samplesMoved, current.buttonState != last.buttonState)))
              && Replay(NOTHING, outbox) == Listener(HeldIds(d.mode, ids), false, false)
              && (AllLegal(NOTHING, outbox) <==> !sentEmptyMove)
              && sentEmptyMove == (old(sentEmptyMove) || AllFingersReplaced(last, gesture.lastGestureMode, current, d))
    {
      hide Prepared, GestureEvents, Replay, AllLegal, AllFingersReplaced, ModeFits, PointerGesture.Ready;
      EmptyMoveIffReplaced(gesture, last, current, table0, active0, cancel, finish, samplesMoved);
      var cancels := cancel && !finish;
      var kept := gesture.lastGestureIdBits * gesture.currentGestureIdBits;
      var moveNeeded := HoldsDown(gesture.currentGestureMode) && !cancels && !finish
        && gesture.lastGestureIdBits != {} && gesture.currentGestureIdBits != {}
        && ((samplesMoved && kept != {}) || current.buttonState != last.buttonState);
      ghost var p := PlanOf(gesture.lastGestureMode, gesture.lastGestureIdBits, gesture.currentGestureMode, gesture.currentGestureIdBits,
                            cancel, finish, moveNeeded);
      ReadyIsPrepared(gesture, current.fingerIdBits, last.fingerIdBits, table0, cancel, finish, p);
      SendFrame(p, cancels, finish, moveNeeded);
      if moveNeeded && kept == {} {
        sentEmptyMove := true;
      }
    }

    lemma LastFits()
      requires InFrame()
      ensures ModeFits(gesture.lastGestureMode, gesture.lastGestureIdBits, gesture.activeGestureId,
                       gesture.freeformTouchToGestureIdMap[..], last.fingerIdBits)
      ensures usage == Gestures ==> Replay(NOTHING, outbox) == Listener(gesture.lastGestureIdBits, false, false)
    {
      hide ModeFits, Replay, AllLegal;
    }

    /** `timeoutExpired` in pointer mode: only a pending tap ends. */
    method TimeoutExpired(when: int)
      requires Valid()
      modifies this`outbox, gesture
      ensures Valid()
      ensures old(usage == Gestures && gesture.lastGestureMode == TAP && when > gesture.tapUpTime + gesture.config.tapDragInterval) ==>
                gesture.lastGestureMode == NEUTRAL && outbox == old(outbox) + [Gesture(Up, [0]), Gesture(HoverMove, [0])]
      ensures !old(usage == Gestures && gesture.lastGestureMode == TAP && when > gesture.tapUpTime + gesture.config.tapDragInterval) ==>
                outbox == old(outbox) && gesture.lastGestureMode == old(gesture.lastGestureMode)
    {
      hide Maps, Continues, Legal, Hear, Prepared, AllLegal, Replay;
      if usage != Gestures {
        return;
      }
      ghost var table0, lastIds := gesture.freeformTouchToGestureIdMap[..], gesture.lastGestureIdBits;
      var send, finish := gesture.PrepareTimeout(when, last.fingerIdBits);
      if send {
        ghost var p := PlanOf(TAP, lastIds, NEUTRAL, {}, false, true, false);
        ReadyIsPrepared(gesture, last.fingerIdBits, last.fingerIdBits, table0, false, true, p);
        SendFrame(p, false, true, false);
        TapEnds(p);
        gesture.Advance(last.fingerIdBits);
      }
    }

    method AbortPointerGestures()
      requires Replay(NOTHING, outbox) == Known() && (AllLegal(NOTHING, outbox) <==> !sentEmptyMove)
      requires !simpleDown && !simpleHovering
      modifies this`outbox, gesture
      ensures Replay(NOTHING, outbox) == Known() && (AllLegal(NOTHING, outbox) <==> !sentEmptyMove)
      ensures gesture.lastGestureMode == NEUTRAL && gesture.lastGestureIdBits == {}
      ensures gesture.sinceDown == [] && gesture.tapDownTime == LLONG_MIN
      ensures outbox == old(outbox) + if old(gesture.lastGestureIdBits) == {} then [] else [Gesture(Cancel, Ascending(old(gesture.lastGestureIdBits)))]
    {
      if gesture.lastGestureIdBits != {} {
        var ids := gesture.lastGestureIdBits;
        ghost var sent := outbox;
        Send(Cancel, ids);
        CancelIsLegal(ids);
        ReplayConcat(NOTHING, sent, [Gesture(Cancel, Ascending(ids))]);
      }
      gesture.Reset();
    }

    // ----- stylus and mouse -----

    /** `dispatchPointerSimple`. */
    method DispatchPointerSimple(down: bool, hovering: bool, scrolls: bool)
      requires Replay(NOTHING, outbox) == Known() && (AllLegal(NOTHING, outbox) <==> !sentEmptyMove)
      requires gesture.lastGestureIdBits == {} && !(down && hovering)
      modifies this`outbox, this`simpleDown, this`simpleHovering
      ensures Replay(NOTHING, outbox) == Known() && (AllLegal(NOTHING, outbox) <==> !sentEmptyMove)
      ensures simpleDown == down && simpleHovering == hovering
      ensures outbox == old(outbox) + SimpleEvents(old(simpleDown), old(simpleHovering), down, hovering, scrolls)
      ensures (Sends(old(outbox), outbox, Simple(SimpleMove)) <==> down) && (Sends(old(outbox), outbox, Simple(SimpleHoverMove)) <==> hovering)
              && (Sends(old(outbox), outbox, Simple(SimpleScroll)) <==> scrolls)
    {
      hide AllLegal, Replay, LeaveEvents, PressEvents, SimpleHoverEvents;
      ghost var sent, wasDown, wasHovering := outbox, simpleDown, simpleHovering;
      LeaveSimple(down, hovering);
      PressSimple(down);
      HoverSimple(hovering);
      ghost var scroll := if scrolls then [Simple(SimpleScroll)] else [];
      PartsAreTheSame(wasDown, wasHovering, down, hovering);
      if scrolls {
        outbox := outbox + [Simple(SimpleScroll)];
      }
      assert outbox == sent + LeaveEvents(wasDown, wasHovering, down, hovering) + PressEvents(wasDown, down)
                       + SimpleHoverEvents(wasHovering, hovering) + scroll;
      AppendFour(sent, LeaveEvents(wasDown, wasHovering, down, hovering), PressEvents(wasDown, down),
                 SimpleHoverEvents(wasHovering, hovering), scroll);
      SimpleIsHeard(sent, wasDown, wasHovering, down, hovering, scrolls);
      WhatTheSimplePointerTells(wasDown, wasHovering, down, hovering, scrolls);
      assert outbox[|sent|..] == SimpleEvents(wasDown, wasHovering, down, hovering, scrolls);
    }

    /** Ends what is over. */
    method LeaveSimple(down: bool, hovering: bool)
      modifies this`outbox, this`simpleDown, this`simpleHovering
      ensures outbox == old(outbox) + LeaveEvents(old(simpleDown), old(simpleHovering), down, hovering)
      ensures simpleDown == (old(simpleDown) && down) && simpleHovering == (old(simpleHovering) && hovering)
    {
      if simpleDown && !down {
        simpleDown := false;
        outbox := outbox + [Simple(SimpleUp)];
      }
      if simpleHovering && !hovering {
        simpleHovering := false;
        outbox := outbox + [Simple(SimpleHoverExit)];
      }
    }

    method PressSimple(down: bool)
      modifies this`outbox, this`simpleDown
      ensures outbox == old(outbox) + PressEvents(old(simpleDown), down) && simpleDown == (old(simpleDown) || down)
    {
      if down {
        if !simpleDown {
          simpleDown := true;
          outbox := outbox + [Simple(SimpleDown)];
        }
        outbox := outbox + [Simple(SimpleMove)];
      }
    }

    method HoverSimple(hovering: bool)
      modifies this`outbox, this`simpleHovering
      ensures outbox == old(outbox) + SimpleHoverEvents(old(simpleHovering), hovering) && simpleHovering == (old(simpleHovering) || hovering)
    {
      if hovering {
        if !simpleHovering {
          simpleHovering := true;
          outbox := outbox + [Simple(SimpleHoverEnter)];
        }
        outbox := outbox + [Simple(SimpleHoverMove)];
      }
    }

    method DispatchPointerStylus(scrolls: bool)
      requires Replay(NOTHING, outbox) == Known() && (AllLegal(NOTHING, outbox) <==> !sentEmptyMove)
      requires gesture.lastGestureIdBits == {}
      modifies this`outbox, this`simpleDown, this`simpleHovering
      ensures Replay(NOTHING, outbox) == Known() && (AllLegal(NOTHING, outbox) <==> !sentEmptyMove)
      ensures current.stylusIdBits == {} ==> !simpleDown && !simpleHovering
      ensures current.stylusIdBits != {} ==> simpleHovering == (FirstMarked(current.stylusIdBits) in current.hoveringIdBits)
                                             && simpleDown == !simpleHovering
    {
      var down, hovering := false, false;
      if current.stylusIdBits != {} {
        hovering := FirstMarked(current.stylusIdBits) in current.hoveringIdBits;
        down := !hovering;
      }
      DispatchPointerSimple(down, hovering, scrolls);
    }

    method DispatchPointerMouse(pointerDown: bool, scrolls: bool)
      requires Replay(NOTHING, outbox) == Known() && (AllLegal(NOTHING, outbox) <==> !sentEmptyMove)
      requires gesture.lastGestureIdBits == {}
      modifies this`outbox, this`simpleDown, this`simpleHovering
      ensures Replay(NOTHING, outbox) == Known() && (AllLegal(NOTHING, outbox) <==> !sentEmptyMove)
      ensures simpleDown == (current.mouseIdBits != {} && pointerDown)
      ensures simpleHovering == (current.mouseIdBits != {} && !pointerDown)
    {
      var down, hovering := false, false;
      if current.mouseIdBits != {} {
        down := pointerDown;
        hovering := !down;
      }
      DispatchPointerSimple(down, hovering, scrolls);
    }

    // ----- usage -----

    /** `abortPointerUsage`: whatever was active ends, and nothing is active afterwards.  A simple pointer
        that ends may still report the scroll of the frame. */
    method AbortPointerUsage(scrolls: bool)
      requires InFrame()
      modifies this`outbox, this`simpleDown, this`simpleHovering, this`usage, gesture
      ensures InFrame() && usage == NoUsage
      ensures Known() == NOTHING
      ensures old(usage) == NoUsage ==> unchanged(gesture)
    {
      hide Maps, Legal, Hear, AllLegal, Replay;
      match usage {
        case Gestures => AbortPointerGestures();
        case StylusUsage => DispatchPointerSimple(false, false, scrolls);
        case MouseUsage => DispatchPointerSimple(false, false, scrolls);
        case NoUsage =>
      }
      usage := NoUsage;
    }

    /** `dispatchPointerUsage`: a change of usage ends the old one first. */
    method DispatchPointerUsage(when: int, newUsage: Usage, pointerDown: bool, scrolls: bool, g: Geometry)
      requires InFrame()
      modifies this`outbox, this`sentEmptyMove, this`simpleDown, this`simpleHovering, this`usage, gesture, gesture.freeformTouchToGestureIdMap
      ensures usage == newUsage
      ensures gesture.Valid(current.fingerIdBits)
      ensures usage != Gestures ==> gesture.lastGestureMode == NEUTRAL
      ensures usage == Gestures || usage == NoUsage ==> !simpleDown && !simpleHovering
      ensures !(simpleDown && simpleHovering)
      ensures usage == StylusUsage && current.stylusIdBits != {} ==>
                simpleHovering == (FirstMarked(current.stylusIdBits) in current.hoveringIdBits) && simpleDown == !simpleHovering
      ensures usage == MouseUsage ==>
                simpleDown == (current.mouseIdBits != {} && pointerDown) && simpleHovering == (current.mouseIdBits != {} && !pointerDown)
      ensures Replay(NOTHING, outbox) == Known() && (AllLegal(NOTHING, outbox) <==> !sentEmptyMove)
      ensures sentEmptyMove == (old(sentEmptyMove) || (usage == Gestures
                && AllFingersReplaced(last, old(gesture.lastGestureMode), current,
                     old(gesture.Decide(when, current.fingerIdBits, last.fingerIdBits, pointerDown, g)))))
      ensures usage == Gestures && (old(usage) == Gestures || old(usage) == NoUsage) ==>
                && gesture.lastGestureMode == old(gesture.Decide(when, current.fingerIdBits, last.fingerIdBits, pointerDown, g)).mode
                && gesture.quietTime == old(gesture.NextQuiet(when, current.fingerIdBits, pointerDown))
    {
      hide Maps, AllLegal, Replay, PointerGesture.Decide, PointerGesture.NextQuiet;
      if newUsage != usage {
        AbortPointerUsage(scrolls);
        usage := newUsage;
      }
      match usage {
        case Gestures => DispatchPointerGestures(when, pointerDown, g);
        case StylusUsage => DispatchPointerStylus(scrolls);
        case MouseUsage => DispatchPointerMouse(pointerDown, scrolls);
        case NoUsage =>
      }
    }

    /** The pointer-mode branch of `cookAndDispatch`. */
    method CookAndDispatch(when: int, raw: RawPointerData, rawButtons: set<nat>, scrolls: bool, g: Geometry)
      requires Valid() && raw.HasIds()
      modifies this, gesture, gesture.freeformTouchToGestureIdMap
      ensures Valid()
      ensures IsClassified(last, raw) && last.buttonState == (if raw.pointerCount == 0 then {} else rawButtons)
      ensures usage == if last.stylusIdBits != {} then StylusUsage
                       else if last.mouseIdBits != {} then MouseUsage
                       else if last.fingerIdBits != {} || IsPointerDown(rawButtons) then Gestures
                       else old(usage)
      ensures usage == StylusUsage && last.stylusIdBits != {} ==>
                simpleHovering == (FirstMarked(last.stylusIdBits) in last.hoveringIdBits) && simpleDown == !simpleHovering
      ensures usage == MouseUsage ==>
                simpleDown == (last.mouseIdBits != {} && IsPointerDown(rawButtons))
                && simpleHovering == (last.mouseIdBits != {} && !IsPointerDown(rawButtons))
      ensures sentEmptyMove == (old(sentEmptyMove) || (usage == Gestures
                && AllFingersReplaced(old(last), old(gesture.lastGestureMode), last,
                     var fingers := last.fingerIdBits; old(gesture.Decide(when, fingers, last.fingerIdBits, IsPointerDown(rawButtons), g)))))
      ensures usage == Gestures && (old(usage) == Gestures || old(usage) == NoUsage) ==>
                var fingers := last.fingerIdBits;
                && gesture.lastGestureMode == old(gesture.Decide(when, fingers, last.fingerIdBits, IsPointerDown(rawButtons), g)).mode
                && gesture.quietTime == old(gesture.NextQuiet(when, fingers, IsPointerDown(rawButtons)))
    {
      hide ModeFits, AllLegal, Replay, IsClassified, RawPointerData.HasIds, Below, IsPointerDown, ChosenUsage, AllFingersReplaced,
           PointerGesture.Decide, PointerGesture.NextQuiet;
      current := Classify(raw, rawButtons);
      ClassifiedFits(current, raw);
      DispatchPointerUsage(when, ChosenUsage(current, IsPointerDown(rawButtons), usage), IsPointerDown(rawButtons), scrolls, g);
      last := current;
      UsageIs(current, IsPointerDown(rawButtons), old(usage));
    }

    /** `cancelTouch`: the active usage ends, and a device-wide cancel names the touching pointers. */
    method CancelTouch()
      requires Valid()
      modifies this`outbox, this`simpleDown, this`simpleHovering, this`usage, gesture
      ensures Valid() && usage == NoUsage && Known() == NOTHING
    {
      hide Maps;
      AbortPointerUsage(false);
      if current.touchingIdBits != {} {
        var order := Order(current.touchingIdBits);
        ReplayConcat(NOTHING, outbox, [TouchCancel(order)]);
        OneEvent(NOTHING, TouchCancel(order));
        outbox := outbox + [TouchCancel(order)];
      }
    }

    /** `reset`, together with the device reset announced right after it. */
    method Reset()
      requires Valid()
      modifies this`outbox, this`simpleDown, this`simpleHovering, this`usage, this`last, this`current, gesture
      ensures Valid() && usage == NoUsage && Known() == NOTHING
    {
      hide Maps;
      usage, simpleDown, simpleHovering := NoUsage, false, false;
      last, current := NO_FRAME, NO_FRAME;
      gesture.Reset();
      ReplayConcat(NOTHING, outbox, [DeviceReset]);
      OneEvent(Replay(NOTHING, outbox), DeviceReset);
      outbox := outbox + [DeviceReset];
    }
  }

  /** `pointerForId(id).toolType`. */
  function ToolOf(raw: RawPointerData, id: nat): ToolType
    requires raw.HasIds() && id in raw.touchingIdBits + raw.hoveringIdBits
  {
    IdsAreABijection(raw);
    raw.pointers[raw.idToIndex[id]].toolType
  }

  /** The pointers among `ids` that are one of these tools. */
  ghost function WithTool(raw: RawPointerData, ids: set<nat>, tools: set<ToolType>): set<nat>
    requires raw.HasIds() && ids <= raw.touchingIdBits + raw.hoveringIdBits
  {
    set id | id in ids && ToolOf(raw, id) in tools
  }

  lemma OneMoreTool(raw: RawPointerData, ids: set<nat>, rest: set<nat>, id: nat, tools: set<ToolType>)
    requires raw.HasIds() && ids <= raw.touchingIdBits + raw.hoveringIdBits && rest <= ids && id in rest
    ensures WithTool(raw, ids - (rest - {id}), tools)
            == WithTool(raw, ids - rest, tools) + if ToolOf(raw, id) in tools then {id} else {}
  {
    hide ToolOf, RawPointerData.HasIds;
  }

  /** A stylus shuts out mice and fingers, and a mouse shuts out fingers; a hovering pointer counts only if it
      is a stylus. */
  ghost predicate IsClassified(f: PointerFrame, raw: RawPointerData)
    requires raw.HasIds()
  {
    && f.touchingIdBits == raw.touchingIdBits && f.hoveringIdBits == raw.hoveringIdBits
    && f.stylusIdBits == WithTool(raw, raw.touchingIdBits, {Stylus, Eraser}) + WithTool(raw, raw.hoveringIdBits, {Stylus, Eraser})
    && f.mouseIdBits == (if f.stylusIdBits != {} then {} else WithTool(raw, raw.touchingIdBits, {Mouse}))
    && f.fingerIdBits == (if f.stylusIdBits + f.mouseIdBits != {} then {} else WithTool(raw, raw.touchingIdBits, {Finger, Unknown}))
    && Below(f.fingerIdBits, MAX_POINTER_ID + 1) && |f.fingerIdBits| <= MAX_POINTERS
  }

  method PickTools(raw: RawPointerData, ids: set<nat>) returns (fingers: set<nat>, styluses: set<nat>, mice: set<nat>)
    requires raw.HasIds() && ids <= raw.touchingIdBits + raw.hoveringIdBits
    ensures fingers == WithTool(raw, ids, {Finger, Unknown})
    ensures styluses == WithTool(raw, ids, {Stylus, Eraser})
    ensures mice == WithTool(raw, ids, {Mouse})
  {
    hide ToolOf, WithTool, RawPointerData.HasIds;
    var rest := ids;
    fingers, styluses, mice := {}, {}, {};
    NoTools(raw);
    assert ids - ids == {};
    while rest != {}
      invariant rest <= ids
      invariant fingers == WithTool(raw, ids - rest, {Finger, Unknown})
      invariant styluses == WithTool(raw, ids - rest, {Stylus, Eraser})
      invariant mice == WithTool(raw, ids - rest, {Mouse})
      decreases |rest|
    {
      var id := FirstMarked(rest);
      OneMoreTool(raw, ids, rest, id, {Finger, Unknown});
      OneMoreTool(raw, ids, rest, id, {Stylus, Eraser});
      OneMoreTool(raw, ids, rest, id, {Mouse});
      rest := rest - {id};
      match ToolOf(raw, id) {
        case Stylus => styluses := styluses + {id};
        case Eraser => styluses := styluses + {id};
        case Finger => fingers := fingers + {id};
        case Unknown => fingers := fingers + {id};
        case Mouse => mice := mice + {id};
      }
    }
    assert ids - rest == ids;
  }

  lemma NoTools(raw: RawPointerData)
    requires raw.HasIds()
    ensures forall tools :: WithTool(raw, {}, tools) == {}
  {
  }

  method Classify(raw: RawPointerData, rawButtons: set<nat>) returns (f: PointerFrame)
    requires raw.HasIds()
    ensures IsClassified(f, raw)
    ensures f.buttonState == if raw.pointerCount == 0 then {} else rawButtons
  {
    hide ToolOf, WithTool, RawPointerData.HasIds;
    var fingers, styluses, mice := PickTools(raw, raw.touchingIdBits);
    var _, hoveringStyluses, _ := PickTools(raw, raw.hoveringIdBits);
    styluses := styluses + hoveringStyluses;
    if styluses != {} {
      mice, fingers := {}, {};
    } else if mice != {} {
      fingers := {};
    }
    ToolsAmong(raw, raw.touchingIdBits, {Finger, Unknown});
    FewTouching(raw, fingers);
    f := PointerFrame(raw.touchingIdBits, raw.hoveringIdBits, fingers, styluses, mice, if raw.pointerCount == 0 then {} else rawButtons);
  }

  lemma ToolsAmong(raw: RawPointerData, ids: set<nat>, tools: set<ToolType>)
    requires raw.HasIds() && ids <= raw.touchingIdBits + raw.hoveringIdBits
    ensures WithTool(raw, ids, tools) <= ids
  {
  }

  /** At most `MAX_POINTERS` pointers have ids. */
  lemma FewTouching(raw: RawPointerData, ids: set<nat>)
    requires raw.HasIds() && ids <= raw.touchingIdBits
    ensures Below(ids, MAX_POINTER_ID + 1) && |ids| <= MAX_POINTERS
  {
    IdsAreABijection(raw);
    InverseSize(raw.idToIndex, ids, raw.pointerCount);
  }

  lemma {:induction false} InverseSize(index: seq<nat>, ids: set<nat>, n: nat)
    requires Below(ids, |index|)
    requires forall id :: id in ids ==> index[id] < n
    requires forall i, j :: i in ids && j in ids && index[i] == index[j] ==> i == j
    ensures |ids| <= n
  {
    if ids != {} {
      if id :| id in ids && index[id] == n - 1 {
        InverseSize(index, ids - {id}, n - 1);
      } else {
        assert n > 0;
        InverseSize(index, ids, n - 1);
      }
    }
  }

  /** A finished tap sends an up and a hover move. */
  lemma TapEnds(p: Plan)
    requires p == Plan({0}, {}, false, false, false, true, false)
    ensures GestureEvents(p) == [Gesture(Up, [0]), Gesture(HoverMove, [0])]
  {
    AscendingLists({0});
    var order := Ascending({0});
    assert order == [0] by { assert order[0] in {0}; }
    assert FirstMarked({0}) == 0;
    assert p.last - Kept(p) == {0};
    assert {0} - {0} == {};
    assert UpEvents({0}, {0}) == [UpEvent({0}, 0)] + UpEvents({}, {});
  }

  /** A pointer that has ended is no longer down or hovering when the other parts come. */
  lemma PartsAreTheSame(wasDown: bool, wasHovering: bool, down: bool, hovering: bool)
    ensures PressEvents(wasDown && down, down) == PressEvents(wasDown, down)
    ensures SimpleHoverEvents(wasHovering && hovering, hovering) == SimpleHoverEvents(wasHovering, hovering)
  {
  }

  lemma SimpleIsHeard(sent: seq<Event>, wasDown: bool, wasHovering: bool, down: bool, hovering: bool, scrolls: bool)
    requires Replay(NOTHING, sent) == Listener({}, wasDown, wasHovering) && !(down && hovering)
    ensures Replay(NOTHING, sent + SimpleEvents(wasDown, wasHovering, down, hovering, scrolls)) == Listener({}, down, hovering)
    ensures AllLegal(NOTHING, sent + SimpleEvents(wasDown, wasHovering, down, hovering, scrolls)) <==> AllLegal(NOTHING, sent)
  {
    hide Legal, Hear, SimpleEvents;
    SimpleIsLegal(wasDown, wasHovering, down, hovering, scrolls);
    ReplayConcat(NOTHING, sent, SimpleEvents(wasDown, wasHovering, down, hovering, scrolls));
  }

  lemma AppendFour(sent: seq<Event>, a: seq<Event>, b: seq<Event>, c: seq<Event>, d: seq<Event>)
    ensures sent + a + b + c + d == sent + (a + b + c + d)
  {
  }

  lemma ReadyIsPrepared(gesture: PointerGesture, fingers: set<nat>, lastFingers: set<nat>, table0: seq<nat>,
                        cancel: bool, finish: bool, p: Plan)
    requires gesture.Ready(fingers, lastFingers, table0, cancel, finish)
    requires p.last == gesture.lastGestureIdBits && p.current == gesture.currentGestureIdBits
    requires p.down == HoldsDown(gesture.currentGestureMode) && p.hover == (gesture.currentGestureMode == HOVER)
    requires p.cancel == (cancel && !finish) && p.finish == finish
    requires p.move ==> p.down && !cancel && !finish && p.last != {}
    ensures Prepared(p)
  {
  }

  lemma ReadyFits(gesture: PointerGesture, fingers: set<nat>, lastFingers: set<nat>, table0: seq<nat>, cancel: bool, finish: bool)
    requires gesture.Ready(fingers, lastFingers, table0, cancel, finish)
    ensures gesture.freeformTouchToGestureIdMap.Length == MAX_POINTER_ID + 1
    ensures ModeFits(gesture.currentGestureMode, HeldIds(gesture.currentGestureMode, gesture.currentGestureIdBits), gesture.activeGestureId,
                     gesture.freeformTouchToGestureIdMap[..], fingers)
  {
    hide ModeFits;
  }

  lemma ClassifiedFits(f: PointerFrame, raw: RawPointerData)
    requires raw.HasIds() && IsClassified(f, raw)
    ensures Below(f.fingerIdBits, MAX_POINTER_ID + 1) && |f.fingerIdBits| <= MAX_POINTERS
  {
    hide WithTool, RawPointerData.HasIds;
  }

  /** Consecutive frames of a gesture that goes on share a pointer unless it is freeform and shares no
      finger. */
  lemma HoldsSomething(mode: Mode, ids: set<nat>, active: int, table: seq<nat>, fingers: set<nat>)
    requires ModeFits(mode, ids, active, table, fingers)
    ensures ids == {} <==> mode == NEUTRAL || mode == QUIET || mode == HOVER
  {
  }

  lemma EmptyMoveIff(gesture: PointerGesture, fingers: set<nat>, lastFingers: set<nat>, table0: seq<nat>, active0: int,
                     cancel: bool, finish: bool)
    requires gesture.Ready(fingers, lastFingers, table0, cancel, finish)
    requires ModeFits(gesture.lastGestureMode, gesture.lastGestureIdBits, active0, table0, lastFingers)
    ensures HoldsDown(gesture.currentGestureMode) && !cancel && !finish && gesture.lastGestureIdBits != {} ==>
              (gesture.lastGestureIdBits * gesture.currentGestureIdBits == {} <==>
                 gesture.lastGestureMode == FREEFORM && gesture.currentGestureMode == FREEFORM && fingers * lastFingers == {})
    ensures gesture.lastGestureMode == FREEFORM ==> gesture.lastGestureIdBits != {}
    ensures gesture.currentGestureMode == FREEFORM ==> gesture.currentGestureIdBits != {}
  {
    if gesture.lastGestureMode == FREEFORM && gesture.currentGestureMode == FREEFORM {
      SharedIds(table0, lastFingers, gesture.lastGestureIdBits, gesture.freeformTouchToGestureIdMap[..], fingers,
                gesture.currentGestureIdBits);
    }
  }

  /** The new events of a gesture frame. */
  ghost predicate Sends(before: seq<Event>, after: seq<Event>, e: Event) {
    |before| <= |after| && e in after[|before|..]
  }

  /** Which moves, hover moves and cancels a frame sends, in terms of the pointers held before and now. */
  lemma WhatIsSent(before: seq<Event>, after: seq<Event>, lastMode: Mode, lastIds: set<nat>, ids: set<nat>, d: Decision,
                   samplesMoved: bool, buttonsChanged: bool)
    requires after == before + GestureEvents(PlanOf(lastMode, lastIds, d.mode, ids, d.cancel, d.finish,
                                                    Moves(d, lastIds, ids, samplesMoved, buttonsChanged)))
    ensures forall e :: Sends(before, after, e) && IsMove(e) ==>
              (samplesMoved || buttonsChanged) && e == Gesture(Move, Ascending(lastIds * HeldIds(d.mode, ids)))
    ensures !d.cancel && !d.finish && lastIds * HeldIds(d.mode, ids) != {} && (samplesMoved || buttonsChanged) ==>
              Sends(before, after, Gesture(Move, Ascending(lastIds * HeldIds(d.mode, ids))))
    ensures forall e :: Sends(before, after, e) && IsCancel(e) <==>
              d.cancel && !d.finish && lastIds != {} && e == Gesture(Cancel, Ascending(lastIds))
    ensures d.mode == HOVER ==> Sends(before, after, Gesture(HoverMove, Ascending(ids)))
    ensures d.mode != HOVER && lastIds != {} && HeldIds(d.mode, ids) == {} && d.finish ==> Sends(before, after, Gesture(HoverMove, [0]))
  {
    hide GestureEvents, Kept, IsMove, IsHoverMove, IsCancel;
    var p := PlanOf(lastMode, lastIds, d.mode, ids, d.cancel, d.finish, Moves(d, lastIds, ids, samplesMoved, buttonsChanged));
    assert after[|before|..] == GestureEvents(p);
    MovesOfFrame(p);
    KeptOf(p);
  }

  lemma KeptOf(p: Plan)
    ensures Kept(p) == if p.cancel || p.finish then {} else p.last * p.current
    ensures IsMove(Gesture(Move, Ascending(Kept(p)))) && IsHoverMove(Gesture(HoverMove, Ascending(p.current)))
    ensures IsHoverMove(Gesture(HoverMove, [0])) && IsCancel(Gesture(Cancel, Ascending(p.last)))
  {
  }

  lemma EmptyMoveIffReplaced(gesture: PointerGesture, from: PointerFrame, to: PointerFrame, table0: seq<nat>, active0: int,
                             cancel: bool, finish: bool, samplesMoved: bool)
    requires gesture.Ready(to.fingerIdBits, from.fingerIdBits, table0, cancel, finish)
    requires ModeFits(gesture.lastGestureMode, gesture.lastGestureIdBits, active0, table0, from.fingerIdBits)
    requires gesture.lastGestureMode == gesture.currentGestureMode == FREEFORM ==> !finish
    ensures var d, lastIds, ids := Decision(gesture.currentGestureMode, cancel, finish), gesture.lastGestureIdBits, gesture.currentGestureIdBits;
            Moves(d, lastIds, ids, samplesMoved, to.buttonState != from.buttonState) && lastIds * ids == {}
            <==> AllFingersReplaced(from, gesture.lastGestureMode, to, d)
  {
    hide PointerGesture.Ready, ModeFits;
    EmptyMoveIff(gesture, to.fingerIdBits, from.fingerIdBits, table0, active0, cancel, finish);
  }

  lemma AppendOne(sent: seq<Event>, e: Event, rest: seq<Event>)
    ensures sent + [e] + rest == sent + ([e] + rest)
  {
  }
}
