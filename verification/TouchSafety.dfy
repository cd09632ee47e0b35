/** Direct mode: what the listener hears is always well formed and tells it exactly the mapper's own
    pointers. */
module TouchSafety {
  import opened BitSets
  import opened RawPointers
  import opened TouchStream

  lemma OneEvent(l: Listener, e: Event, l': Listener)
    requires Legal(l, e) && Hear(l, e) == l'
    ensures Leads(l, [e], l')
  {
    assert [e][1..] == [];
  }

  /** A pointer going up: the index in the event is the rank of its id among those still down. */
  lemma UpIsLegal(data: CookedPointerData, ids: set<nat>, id: nat, buttons: set<nat>, hovering: bool)
    requires data.Sized() && Below(ids, MAX_POINTER_ID + 1) && id in ids
    ensures Leads(Listener(ids, hovering), [MotionFor(OneUp(id), data, ids, buttons)], Listener(ids - {id}, hovering))
  {
    AscendingLists(ids);
    if |ids| == 1 {
      OneElement(ids, id);
      assert Ascending(ids)[0] in ids;
    }
    OneEvent(Listener(ids, hovering), MotionFor(OneUp(id), data, ids, buttons), Listener(ids - {id}, hovering));
  }

  lemma DownIsLegal(data: CookedPointerData, ids: set<nat>, id: nat, buttons: set<nat>)
    requires data.Sized() && Below(ids + {id}, MAX_POINTER_ID + 1) && id !in ids
    ensures Leads(Listener(ids, false), [MotionFor(OneDown(id), data, ids + {id}, buttons)], Listener(ids + {id}, false))
  {
    AscendingLists(ids + {id});
    assert |ids + {id}| == |ids| + 1;
    OneEvent(Listener(ids, false), MotionFor(OneDown(id), data, ids + {id}, buttons), Listener(ids + {id}, false));
  }

  /** An event whose action does not depend on the ids. */
  lemma PlainIsLegal(data: CookedPointerData, ids: set<nat>, action: Action, buttons: set<nat>, l: Listener, l': Listener)
    requires CanDispatch(Plain(action), data, ids) && ids != {}
    requires match action
             case Move => l.touching == ids && l' == l
             case Cancel => l' == l.(touching := {})
             case HoverEnter => l == Listener({}, false) && l' == Listener({}, true)
             case HoverMove => l == l' == Listener({}, true)
             case HoverExit => l == Listener({}, true) && l' == Listener({}, false)
             case ButtonPress(_) => l' == l && PointsTo(l, ids)
             case ButtonRelease(_) => l' == l && PointsTo(l, ids)
             case _ => false
    ensures Leads(l, [MotionFor(Plain(action), data, ids, buttons)], l')
  {
    AscendingLists(ids);
    OneEvent(l, MotionFor(Plain(action), data, ids, buttons), l');
  }

  ghost predicate PointsTo(l: Listener, ids: set<nat>) {
    if l.touching != {} then ids == l.touching else l.hovering
  }

  lemma {:induction false} UpsAreLegal(data: CookedPointerData, up: set<nat>, dispatched: set<nat>, buttons: set<nat>, hovering: bool)
    requires data.Sized() && up <= dispatched && Below(dispatched, MAX_POINTER_ID + 1)
    ensures Leads(Listener(dispatched, hovering), UpEvents(data, up, dispatched, buttons), Listener(dispatched - up, hovering))
    decreases |up|
  {
    if up != {} {
      var id := FirstMarked(up);
      UpIsLegal(data, dispatched, id, buttons, hovering);
      UpsAreLegal(data, up - {id}, dispatched - {id}, buttons, hovering);
      assert dispatched - {id} - (up - {id}) == dispatched - up;
      LeadsConcat(Listener(dispatched, hovering), [MotionFor(OneUp(id), data, dispatched, buttons)],
                  Listener(dispatched - {id}, hovering),
                  UpEvents(data, up - {id}, dispatched - {id}, buttons), Listener(dispatched - up, hovering));
    } else {
      assert dispatched - up == dispatched;
    }
  }

  lemma {:induction false} DownsAreLegal(data: CookedPointerData, down: set<nat>, dispatched: set<nat>, buttons: set<nat>)
    requires data.Sized() && Below(down + dispatched, MAX_POINTER_ID + 1) && down !! dispatched
    ensures Leads(Listener(dispatched, false), DownEvents(data, down, dispatched, buttons), Listener(dispatched + down, false))
    decreases |down|
  {
    hide MotionFor, Legal, Hear;
    if down == {} {
      assert dispatched + down == dispatched;
    } else {
      var id := FirstMarked(down);
      DownIsLegal(data, dispatched, id, buttons);
      DownsAreLegal(data, down - {id}, dispatched + {id}, buttons);
      DownThenDowns(data, down, dispatched, id, buttons);
    }
  }

  lemma DownThenDowns(data: CookedPointerData, down: set<nat>, dispatched: set<nat>, id: nat, buttons: set<nat>)
    requires data.Sized() && Below(down + dispatched, MAX_POINTER_ID + 1) && down != {} && id == FirstMarked(down)
    requires Leads(Listener(dispatched, false), [MotionFor(OneDown(id), data, dispatched + {id}, buttons)], Listener(dispatched + {id}, false))
    requires Leads(Listener(dispatched + {id}, false), DownEvents(data, down - {id}, dispatched + {id}, buttons),
                   Listener(dispatched + {id} + (down - {id}), false))
    ensures Leads(Listener(dispatched, false), DownEvents(data, down, dispatched, buttons), Listener(dispatched + down, false))
  {
    assert dispatched + {id} + (down - {id}) == dispatched + down;
    LeadsConcat(Listener(dispatched, false), [MotionFor(OneDown(id), data, dispatched + {id}, buttons)], Listener(dispatched + {id}, false),
                DownEvents(data, down - {id}, dispatched + {id}, buttons), Listener(dispatched + down, false));
  }

  /** What `dispatchTouches` sends when the touching ids have changed, and that it can be sent. */
  lemma TouchParts(last: CookedState, current: CookedState)
    requires last.data.Valid() && current.data.Valid() && last.data.touchingIdBits != current.data.touchingIdBits
    ensures var (lastIds, ids) := (last.data.touchingIdBits, current.data.touchingIdBits);
            var moveIds, buttons := lastIds * ids, current.buttonState;
            && Below(lastIds, MAX_POINTER_ID + 1) && Below(ids, MAX_POINTER_ID + 1) && moveIds <= last.data.Ids() && moveIds <= current.data.Ids()
            && last.data.Sized() && CanDispatch(Plain(Move), current.data, moveIds)
            && AfterTouches(last, current) == WithMoved(last.data, current.data, moveIds)
            && WithMoved(last.data, current.data, moveIds).Sized()
            && Below(ids - lastIds + moveIds, MAX_POINTER_ID + 1)
            && TouchEvents(last, current) ==
                 UpEvents(WithMoved(last.data, current.data, moveIds), lastIds - ids, lastIds, buttons)
                 + (if (AnyMoved(last.data, current.data, moveIds) || buttons != last.buttonState) && moveIds != {}
                    then [MotionFor(Plain(Move), current.data, moveIds, buttons)] else [])
                 + DownEvents(current.data, ids - lastIds, moveIds, buttons)
  {
    hide MotionFor, AnyMoved, UpEvents, DownEvents;
  }

  lemma SomeTouchesAreLegal(last: CookedState, current: CookedState, hovering: bool)
    requires last.data.Valid() && current.data.Valid() && last.data.touchingIdBits != current.data.touchingIdBits
    requires hovering ==> current.data.touchingIdBits == {}
    ensures Leads(Listener(last.data.touchingIdBits, hovering), TouchEvents(last, current),
                  Listener(current.data.touchingIdBits, hovering))
  {
    hide CookedPointerData.Valid, CookedPointerData.Sized, MotionFor, AnyMoved, WithMoved, TouchEvents, AfterTouches, UpEvents;
    TouchParts(last, current);
    var lastIds, currentIds := last.data.touchingIdBits, current.data.touchingIdBits;
    var moveIds, buttons := lastIds * currentIds, current.buttonState;
    var l0, l1, l2 := Listener(lastIds, hovering), Listener(moveIds, hovering), Listener(currentIds, hovering);
    var moved := WithMoved(last.data, current.data, moveIds);
    var ups := UpEvents(moved, lastIds - currentIds, lastIds, buttons);
    UpsAreLegal(moved, lastIds - currentIds, lastIds, buttons, hovering);
    assert lastIds - (lastIds - currentIds) == moveIds;
    var move := if (AnyMoved(last.data, current.data, moveIds) || buttons != last.buttonState) && moveIds != {}
                then [MotionFor(Plain(Move), current.data, moveIds, buttons)] else [];
    if moveIds != {} {
      PlainIsLegal(current.data, moveIds, Move, buttons, l1, l1);
    }
    assert moveIds + (currentIds - lastIds) == currentIds;
    if !hovering {
      DownsAreLegal(current.data, currentIds - lastIds, moveIds, buttons);
    }
    LeadsConcat(l0, ups, l1, move, l1);
    LeadsConcat(l0, ups + move, l1, DownEvents(current.data, currentIds - lastIds, moveIds, buttons), l2);
  }

  /** `dispatchTouches` takes the listener from the last touching set to the current one. */
  lemma TouchesAreLegal(last: CookedState, current: CookedState, hovering: bool)
    requires last.data.Valid() && current.data.Valid()
    requires hovering ==> current.data.touchingIdBits == {}
    ensures Leads(Listener(last.data.touchingIdBits, hovering), TouchEvents(last, current),
                  Listener(current.data.touchingIdBits, hovering))
  {
    var currentIds := current.data.touchingIdBits;
    if currentIds != last.data.touchingIdBits {
      SomeTouchesAreLegal(last, current, hovering);
    } else if currentIds != {} {
      var l := Listener(currentIds, hovering);
      PlainIsLegal(current.data, currentIds, Move, current.buttonState, l, l);
    }
  }

  lemma {:induction false} ReleasesAreLegal(data: CookedPointerData, ids: set<nat>, released: set<nat>, buttons: set<nat>, l: Listener)
    requires data.Sized() && Below(ids, MAX_POINTER_ID + 1)
    requires released == {} || (ids != {} && PointsTo(l, ids))
    ensures Leads(l, ReleaseEvents(data, ids, released, buttons), l)
    decreases |released|
  {
    if released != {} {
      var b := FirstMarked(released);
      PlainIsLegal(data, ids, ButtonRelease(b), buttons - {b}, l, l);
      ReleasesAreLegal(data, ids, released - {b}, buttons - {b}, l);
      LeadsConcat(l, [MotionFor(Plain(ButtonRelease(b)), data, ids, buttons - {b})], l,
                  ReleaseEvents(data, ids, released - {b}, buttons - {b}), l);
    }
  }

  lemma {:induction false} PressesAreLegal(data: CookedPointerData, ids: set<nat>, pressed: set<nat>, buttons: set<nat>, l: Listener)
    requires data.Sized() && Below(ids, MAX_POINTER_ID + 1)
    requires pressed == {} || (ids != {} && PointsTo(l, ids))
    ensures Leads(l, PressEvents(data, ids, pressed, buttons), l)
    decreases |pressed|
  {
    if pressed != {} {
      var b := FirstMarked(pressed);
      PlainIsLegal(data, ids, ButtonPress(b), buttons + {b}, l, l);
      PressesAreLegal(data, ids, pressed - {b}, buttons + {b}, l);
      LeadsConcat(l, [MotionFor(Plain(ButtonPress(b)), data, ids, buttons + {b})], l,
                  PressEvents(data, ids, pressed - {b}, buttons + {b}), l);
    }
  }

  /** Pressed buttons come with a pointer. */
  ghost predicate ButtonsHavePointer(state: CookedState) {
    state.buttonState != {} ==> state.data.Ids() != {}
  }

  /** The mapper is hovering: pointers hover and none touches. */
  ghost predicate Hovers(state: CookedState) {
    !HoverEnds(state.data)
  }

  /** One frame of a motion that is not aborted: every event is legal, the listener ends up with the
      current touching set, and it hovers exactly when the current sample hovers. */
  lemma FrameIsLegal(last: CookedState, current: CookedState, rawButtons: set<nat>)
    requires last.data.Valid() && current.data.Valid()
    requires ButtonsHavePointer(last) && ButtonsHavePointer(current)
    ensures Leads(Listener(last.data.touchingIdBits, Hovers(last)),
                  FrameEvents(last, current, rawButtons, Hovers(last)),
                  Listener(current.data.touchingIdBits, Hovers(current)))
  {
    var lastIds, currentIds := last.data.touchingIdBits, current.data.touchingIdBits;
    var sent := Hovers(last);
    var still := sent && Hovers(current);
    var l0, l1 := Listener(lastIds, sent), Listener(lastIds, still);
    var l2, l3 := Listener(currentIds, still), Listener(currentIds, Hovers(current));
    var released := last.buttonState - current.buttonState;
    var pressed := current.buttonState - last.buttonState;
    var e0, e1 := ButtonReleaseEvents(last, current), HoverExitEvents(last, current, sent);
    var e2, e3, e4 := TouchEvents(last, current), HoverEvents(current, rawButtons, still), ButtonPressEvents(last, current);

    ReleasesAreLegal(current.data, last.data.ActiveIdBits(), released, last.buttonState, l0);
    HoverExitIsLegal(last, current);
    LeadsConcat(l0, e0, l0, e1, l1);
    TouchesAreLegal(last, current, still);
    LeadsConcat(l0, e0 + e1, l1, e2, l2);
    HoverIsLegal(current, rawButtons, still);
    LeadsConcat(l0, e0 + e1 + e2, l2, e3, l3);
    PressesAreLegal(current.data, current.data.ActiveIdBits(), pressed, last.buttonState, l3);
    LeadsConcat(l0, e0 + e1 + e2 + e3, l3, e4, l3);
  }

  lemma HoverExitIsLegal(last: CookedState, current: CookedState)
    requires last.data.Valid()
    ensures Leads(Listener(last.data.touchingIdBits, Hovers(last)), HoverExitEvents(last, current, Hovers(last)),
                  Listener(last.data.touchingIdBits, Hovers(last) && Hovers(current)))
  {
    if Hovers(last) && !Hovers(current) {
      PlainIsLegal(last.data, last.data.hoveringIdBits, HoverExit, last.buttonState, Listener({}, true), Listener({}, false));
    }
  }

  lemma HoverIsLegal(current: CookedState, rawButtons: set<nat>, still: bool)
    requires current.data.Valid()
    requires still ==> Hovers(current)
    ensures Leads(Listener(current.data.touchingIdBits, still), HoverEvents(current, rawButtons, still),
                  Listener(current.data.touchingIdBits, Hovers(current)))
  {
    if Hovers(current) {
      var ids := current.data.hoveringIdBits;
      var l, l' := Listener({}, still), Listener({}, true);
      var enter := if still then [] else [MotionFor(Plain(HoverEnter), current.data, ids, rawButtons)];
      var move := [MotionFor(Plain(HoverMove), current.data, ids, rawButtons)];
      if !still {
        PlainIsLegal(current.data, ids, HoverEnter, rawButtons, l, l');
      }
      PlainIsLegal(current.data, ids, HoverMove, rawButtons, l', l');
      LeadsConcat(l, enter, l', move, l');
    }
  }
}
