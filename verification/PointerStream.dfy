/** The two event streams of a touch pad in pointer mode, multi-finger gestures and the simple stylus or
    mouse pointer, and the listener that hears both. */
module PointerStream {
  import opened BitSets

  datatype GestureAction = Down | PointerDown(index: nat) | Move | PointerUp(index: nat) | Up | Cancel | HoverMove

  datatype SimpleAction = SimpleDown | SimpleMove | SimpleUp | SimpleHoverEnter | SimpleHoverMove | SimpleHoverExit | SimpleScroll

  datatype Event =
    | Gesture(action: GestureAction, ids: seq<nat>)
    | Simple(simple: SimpleAction)
    | TouchCancel(ids: seq<nat>)
    | DeviceReset

  /** What a listener knows: the gesture pointers that are down and the state of the simple pointer. */
  datatype Listener = Listener(gesture: set<nat>, down: bool, hovering: bool)

  const NOTHING: Listener := Listener({}, false, false)

  ghost predicate Legal(l: Listener, e: Event) {
    match e
    case DeviceReset => true
    case TouchCancel(_) => l == NOTHING
    case Gesture(action, ids) =>
      && !l.down && !l.hovering && ids != [] && Increasing(ids)
      && (match action
          case Down => |ids| == 1 && l.gesture == {}
          case PointerDown(i) => i < |ids| && l.gesture != {} && ids[i] !in l.gesture && Elements(ids) == l.gesture + {ids[i]}
          case Move => Elements(ids) == l.gesture
          case Up => |ids| == 1 && l.gesture == {ids[0]}
          case PointerUp(i) => i < |ids| && |ids| > 1 && Elements(ids) == l.gesture
          case Cancel => Elements(ids) == l.gesture
          case HoverMove => l.gesture == {})
    case Simple(action) =>
      && l.gesture == {}
      && (match action
          case SimpleDown => !l.down && !l.hovering
          case SimpleMove => l.down
          case SimpleUp => l.down
          case SimpleHoverEnter => !l.down && !l.hovering
          case SimpleHoverMove => l.hovering
          case SimpleHoverExit => l.hovering
          case SimpleScroll => true)
  }

  ghost function Hear(l: Listener, e: Event): Listener {
    match e
    case DeviceReset => NOTHING
    case TouchCancel(_) => NOTHING
    case Gesture(action, ids) =>
      (match action
       case Down => l.(gesture := Elements(ids))
       case PointerDown(_) => l.(gesture := Elements(ids))
       case Up => l.(gesture := l.gesture - Elements(ids))
       case PointerUp(i) => if i < |ids| then l.(gesture := l.gesture - {ids[i]}) else l
       case Cancel => l.(gesture := {})
       case Move => l
       case HoverMove => l)
    case Simple(action) =>
      match action
      case SimpleDown => l.(down := true)
      case SimpleUp => l.(down := false)
      case SimpleHoverEnter => l.(hovering := true)
      case SimpleHoverExit => l.(hovering := false)
      case _ => l
  }

  ghost function Replay(l: Listener, events: seq<Event>): Listener
    decreases |events|
  {
    if events == [] then l else Replay(Hear(l, events[0]), events[1..])
  }

  ghost predicate AllLegal(l: Listener, events: seq<Event>)
    decreases |events|
  {
    events == [] || (Legal(l, events[0]) && AllLegal(Hear(l, events[0]), events[1..]))
  }

  ghost predicate Leads(l: Listener, events: seq<Event>, l': Listener) {
    AllLegal(l, events) && Replay(l, events) == l'
  }

  /** Legality and effect of a concatenation are those of its parts. */
  lemma {:induction false} ReplayConcat(l: Listener, first: seq<Event>, second: seq<Event>)
    ensures Replay(l, first + second) == Replay(Replay(l, first), second)
    ensures AllLegal(l, first + second) <==> AllLegal(l, first) && AllLegal(Replay(l, first), second)
    decreases |first|
  {
    if first == [] {
      assert first + second == second;
    } else {
      ReplayConcat(Hear(l, first[0]), first[1..], second);
      assert (first + second)[1..] == first[1..] + second;
    }
  }

  lemma LeadsConcat(l: Listener, first: seq<Event>, m: Listener, second: seq<Event>, r: Listener)
    requires Leads(l, first, m) && Leads(m, second, r)
    ensures Leads(l, first + second, r)
  {
    ReplayConcat(l, first, second);
  }

  lemma NoEvents(l: Listener)
    ensures Leads(l, [], l)
  {
  }

  lemma OneEvent(l: Listener, e: Event)
    ensures Replay(l, [e]) == Hear(l, e)
    ensures AllLegal(l, [e]) <==> Legal(l, e)
  {
    assert [e][1..] == [];
  }

  // ----- the events the dispatchers send -----

  ghost function IndexIn(order: seq<nat>, id: nat): (k: nat)
    requires id in order
    ensures k < |order| && order[k] == id
  {
    var k :| 0 <= k < |order| && order[k] == id;
    k
  }

  /** `dispatchMotion` for one gesture pointer going up. */
  ghost function UpEvent(ids: set<nat>, id: nat): Event
    requires id in ids
  {
    var order := Ascending(ids);
    Gesture(if |order| == 1 then Up else PointerUp(IndexIn(order, id)), order)
  }

  ghost function DownEvent(ids: set<nat>, id: nat): Event
    requires id in ids
  {
    var order := Ascending(ids);
    Gesture(if |order| == 1 then Down else PointerDown(IndexIn(order, id)), order)
  }

  ghost function UpEvents(up: set<nat>, dispatched: set<nat>): seq<Event>
    requires up <= dispatched
  {
    if up == {} then []
    else
      var id := FirstMarked(up);
      [UpEvent(dispatched, id)] + UpEvents(up - {id}, dispatched - {id})
  }

  ghost function DownEvents(down: set<nat>, dispatched: set<nat>): seq<Event> {
    if down == {} then []
    else
      var id := FirstMarked(down);
      [DownEvent(dispatched + {id}, id)] + DownEvents(down - {id}, dispatched + {id})
  }

  lemma UpIsLegal(ids: set<nat>, id: nat)
    requires id in ids
    ensures Leads(Listener(ids, false, false), [UpEvent(ids, id)], Listener(ids - {id}, false, false))
  {
    AscendingLists(ids);
    if |ids| == 1 {
      OneElement(ids, id);
      assert Ascending(ids)[0] in ids;
    }
    OneEvent(Listener(ids, false, false), UpEvent(ids, id));
  }

  lemma DownIsLegal(ids: set<nat>, id: nat)
    requires id !in ids
    ensures Leads(Listener(ids, false, false), [DownEvent(ids + {id}, id)], Listener(ids + {id}, false, false))
  {
    AscendingLists(ids + {id});
    assert |ids + {id}| == |ids| + 1;
    OneEvent(Listener(ids, false, false), DownEvent(ids + {id}, id));
  }

  lemma {:induction false} UpsAreLegal(up: set<nat>, dispatched: set<nat>)
    requires up <= dispatched
    ensures Leads(Listener(dispatched, false, false), UpEvents(up, dispatched), Listener(dispatched - up, false, false))
    decreases |up|
  {
    hide Leads;
    if up == {} {
      assert dispatched - up == dispatched;
      NoEvents(Listener(dispatched, false, false));
    } else {
      var id := FirstMarked(up);
      UpIsLegal(dispatched, id);
      UpsAreLegal(up - {id}, dispatched - {id});
      assert dispatched - {id} - (up - {id}) == dispatched - up;
      LeadsConcat(Listener(dispatched, false, false), [UpEvent(dispatched, id)], Listener(dispatched - {id}, false, false),
                  UpEvents(up - {id}, dispatched - {id}), Listener(dispatched - up, false, false));
    }
  }

  lemma {:induction false} DownsAreLegal(down: set<nat>, dispatched: set<nat>)
    requires down !! dispatched
    ensures Leads(Listener(dispatched, false, false), DownEvents(down, dispatched), Listener(dispatched + down, false, false))
    decreases |down|
  {
    hide Leads;
    if down == {} {
      assert dispatched + down == dispatched;
      NoEvents(Listener(dispatched, false, false));
    } else {
      var id := FirstMarked(down);
      DownIsLegal(dispatched, id);
      DownsAreLegal(down - {id}, dispatched + {id});
      assert dispatched + {id} + (down - {id}) == dispatched + down;
      LeadsConcat(Listener(dispatched, false, false), [DownEvent(dispatched + {id}, id)], Listener(dispatched + {id}, false, false),
                  DownEvents(down - {id}, dispatched + {id}), Listener(dispatched + down, false, false));
    }
  }

  /** What a gesture frame does to the pointers that are down. */
  datatype Plan = Plan(last: set<nat>, current: set<nat>, down: bool, hover: bool, cancel: bool, finish: bool, move: bool)

  /** The pointers left after the ups of the frame. */
  ghost function Kept(p: Plan): set<nat> {
    if p.cancel || p.finish then {} else p.last * p.current
  }

  ghost function LeavingEvents(p: Plan): seq<Event> {
    if p.last == {} then []
    else if p.cancel then [Gesture(Cancel, Ascending(p.last))]
    else UpEvents(p.last - Kept(p), p.last)
  }

  ghost function HoverEvents(p: Plan): seq<Event> {
    if p.hover then [Gesture(HoverMove, Ascending(p.current))]
    else if (Kept(p) + (if p.down then p.current else {})) == {} && p.last != {} then [Gesture(HoverMove, [0])]
    else []
  }

  /** The events of `dispatchPointerGestures` once the gesture has been prepared. */
  ghost function GestureEvents(p: Plan): seq<Event> {
    LeavingEvents(p)
    + (if p.move then [Gesture(Move, Ascending(Kept(p)))] else [])
    + (if p.down then DownEvents(p.current - Kept(p), Kept(p)) else [])
    + HoverEvents(p)
  }

  /** What the preparation guarantees about a frame. */
  ghost predicate Prepared(p: Plan) {
    && !(p.cancel && p.finish)
    && (p.down ==> p.current != {} && !p.hover)
    && (p.hover ==> p.current != {})
    && (!p.down ==> p.finish || p.last == {})
    && (p.move ==> p.down && !p.cancel && !p.finish && p.last != {})
  }

  /** No pointer goes up or down by a move. */
  lemma {:induction false} UpsDoNotMove(up: set<nat>, dispatched: set<nat>)
    requires up <= dispatched
    ensures forall e :: e in UpEvents(up, dispatched) ==> e.Gesture? && (e.action.Up? || e.action.PointerUp?)
    decreases |up|
  {
    if up != {} {
      var id := FirstMarked(up);
      UpsDoNotMove(up - {id}, dispatched - {id});
    }
  }

  lemma {:induction false} DownsDoNotMove(down: set<nat>, dispatched: set<nat>)
    ensures forall e :: e in DownEvents(down, dispatched) ==> e.Gesture? && (e.action.Down? || e.action.PointerDown?)
    decreases |down|
  {
    if down != {} {
      var id := FirstMarked(down);
      DownsDoNotMove(down - {id}, dispatched + {id});
    }
  }

  ghost predicate IsMove(e: Event) {
    e.Gesture? && e.action.Move?
  }

  ghost predicate IsHoverMove(e: Event) {
    e.Gesture? && e.action.HoverMove?
  }

  ghost predicate IsCancel(e: Event) {
    e.Gesture? && e.action.Cancel?
  }

  lemma Parts(a: seq<Event>, b: seq<Event>, c: seq<Event>, d: seq<Event>)
    ensures forall e :: e in a + b + c + d <==> e in a || e in b || e in c || e in d
  {
  }

  lemma LeavingMoves(p: Plan)
    ensures forall e :: e in LeavingEvents(p) ==> !IsMove(e) && !IsHoverMove(e)
    ensures forall e :: e in LeavingEvents(p) && IsCancel(e) <==> p.cancel && p.last != {} && e == Gesture(Cancel, Ascending(p.last))
  {
    UpsDoNotMove(p.last - Kept(p), p.last);
  }

  /** Which moves, hover moves and cancels a gesture frame has. */
  lemma MovesOfFrame(p: Plan)
    ensures forall e :: e in GestureEvents(p) && IsMove(e) <==> p.move && e == Gesture(Move, Ascending(Kept(p)))
    ensures forall e :: e in GestureEvents(p) && IsCancel(e) <==> p.cancel && p.last != {} && e == Gesture(Cancel, Ascending(p.last))
    ensures forall e :: e in GestureEvents(p) && IsHoverMove(e) <==>
              if p.hover then e == Gesture(HoverMove, Ascending(p.current))
              else p.last != {} && Kept(p) == {} && (p.down ==> p.current == {}) && e == Gesture(HoverMove, [0])
  {
    hide LeavingEvents, Kept, DownEvents, Ascending;
    LeavingMoves(p);
    DownsDoNotMove(p.current - Kept(p), Kept(p));
    Parts(LeavingEvents(p), if p.move then [Gesture(Move, Ascending(Kept(p)))] else [],
          if p.down then DownEvents(p.current - Kept(p), Kept(p)) else [], HoverEvents(p));
  }

  lemma LeavingIsLegal(p: Plan)
    requires Prepared(p)
    ensures Leads(Listener(p.last, false, false), LeavingEvents(p), Listener(Kept(p), false, false))
  {
    hide Hear;
    if p.last != {} {
      if p.cancel {
        CancelIsLegal(p.last);
      } else {
        UpsAreLegal(p.last - Kept(p), p.last);
        assert p.last - (p.last - Kept(p)) == Kept(p);
      }
    } else {
      assert Kept(p) == {};
    }
  }

  lemma CancelIsLegal(ids: set<nat>)
    requires ids != {}
    ensures Leads(Listener(ids, false, false), [Gesture(Cancel, Ascending(ids))], NOTHING)
  {
    AscendingLists(ids);
    OneEvent(Listener(ids, false, false), Gesture(Cancel, Ascending(ids)));
  }

  lemma HoverIsLegal(p: Plan)
    requires Prepared(p)
    ensures var l := Listener(if p.down then p.current else {}, false, false); Leads(l, HoverEvents(p), l)
  {
    var l := Listener(if p.down then p.current else {}, false, false);
    AscendingLists(p.current);
    OneEvent(l, Gesture(HoverMove, Ascending(p.current)));
    OneEvent(l, Gesture(HoverMove, [0]));
    assert [0] != [] && Increasing([0]);
  }

  /** A prepared frame takes the listener from the last gesture pointers to the current ones.  All its
      events are legal exactly when it does not ask for a move of no pointers. */
  lemma GestureFrame(p: Plan)
    requires Prepared(p)
    ensures Replay(Listener(p.last, false, false), GestureEvents(p)) == Listener(if p.down then p.current else {}, false, false)
    ensures AllLegal(Listener(p.last, false, false), GestureEvents(p)) <==> !(p.move && p.last * p.current == {})
  {
    hide Legal, Hear;
    var l0, l1 := Listener(p.last, false, false), Listener(Kept(p), false, false);
    var l2 := Listener(if p.down then p.current else {}, false, false);
    var leaving, hover := LeavingEvents(p), HoverEvents(p);
    var move := if p.move then [Gesture(Move, Ascending(Kept(p)))] else [];
    var downs := if p.down then DownEvents(p.current - Kept(p), Kept(p)) else [];
    LeavingIsLegal(p);
    MoveOf(Kept(p));
    if p.down {
      DownsAreLegal(p.current - Kept(p), Kept(p));
      assert Kept(p) + (p.current - Kept(p)) == p.current;
    } else {
      assert Kept(p) == {};
    }
    assert Leads(l1, downs, l2);
    HoverIsLegal(p);
    ReplayConcat(l0, leaving, move);
    ReplayConcat(l0, leaving + move, downs);
    ReplayConcat(l0, leaving + move + downs, hover);
  }

  lemma MoveOf(kept: set<nat>)
    ensures var l := Listener(kept, false, false); var e := Gesture(Move, Ascending(kept));
            Replay(l, [e]) == l && (AllLegal(l, [e]) <==> kept != {})
  {
    AscendingLists(kept);
    OneEvent(Listener(kept, false, false), Gesture(Move, Ascending(kept)));
  }

  // ----- the simple pointer -----

  ghost function LeaveEvents(wasDown: bool, wasHovering: bool, down: bool, hovering: bool): seq<Event> {
    (if wasDown && !down then [Simple(SimpleUp)] else [])
    + (if wasHovering && !hovering then [Simple(SimpleHoverExit)] else [])
  }

  ghost function PressEvents(wasDown: bool, down: bool): seq<Event> {
    if down then (if wasDown then [] else [Simple(SimpleDown)]) + [Simple(SimpleMove)] else []
  }

  ghost function SimpleHoverEvents(wasHovering: bool, hovering: bool): seq<Event> {
    if hovering then (if wasHovering then [] else [Simple(SimpleHoverEnter)]) + [Simple(SimpleHoverMove)] else []
  }

  /** `dispatchPointerSimple`, given the state of the pointer before and after. */
  ghost function SimpleEvents(wasDown: bool, wasHovering: bool, down: bool, hovering: bool, scrolls: bool): seq<Event> {
    LeaveEvents(wasDown, wasHovering, down, hovering)
    + PressEvents(wasDown, down)
    + SimpleHoverEvents(wasHovering, hovering)
    + (if scrolls then [Simple(SimpleScroll)] else [])
  }

  lemma LeaveIsLegal(wasDown: bool, wasHovering: bool, down: bool, hovering: bool)
    ensures Leads(Listener({}, wasDown, wasHovering), LeaveEvents(wasDown, wasHovering, down, hovering),
                  Listener({}, wasDown && down, wasHovering && hovering))
  {
    var l0, l1 := Listener({}, wasDown, wasHovering), Listener({}, wasDown && down, wasHovering);
    var up := if wasDown && !down then [Simple(SimpleUp)] else [];
    var exit := if wasHovering && !hovering then [Simple(SimpleHoverExit)] else [];
    OneEvent(l0, Simple(SimpleUp));
    OneEvent(l1, Simple(SimpleHoverExit));
    LeadsConcat(l0, up, l1, exit, Listener({}, wasDown && down, wasHovering && hovering));
  }

  lemma PressIsLegal(wasDown: bool, down: bool, hovering: bool)
    requires wasDown ==> down
    requires down ==> !hovering
    ensures Leads(Listener({}, wasDown, hovering), PressEvents(wasDown, down), Listener({}, down, hovering))
  {
    var l, l' := Listener({}, wasDown, hovering), Listener({}, down, hovering);
    var press := if down && !wasDown then [Simple(SimpleDown)] else [];
    var move := if down then [Simple(SimpleMove)] else [];
    OneEvent(l, Simple(SimpleDown));
    OneEvent(l', Simple(SimpleMove));
    LeadsConcat(l, press, l', move, l');
  }

  lemma SimpleHoverIsLegal(down: bool, wasHovering: bool, hovering: bool)
    requires wasHovering ==> hovering
    requires hovering ==> !down
    ensures Leads(Listener({}, down, wasHovering), SimpleHoverEvents(wasHovering, hovering), Listener({}, down, hovering))
  {
    var l, l' := Listener({}, down, wasHovering), Listener({}, down, hovering);
    var enter := if hovering && !wasHovering then [Simple(SimpleHoverEnter)] else [];
    var move := if hovering then [Simple(SimpleHoverMove)] else [];
    OneEvent(l, Simple(SimpleHoverEnter));
    OneEvent(l', Simple(SimpleHoverMove));
    LeadsConcat(l, enter, l', move, l');
  }

  lemma ScrollIsLegal(l: Listener, scrolls: bool)
    requires l.gesture == {}
    ensures Leads(l, if scrolls then [Simple(SimpleScroll)] else [], l)
  {
    OneEvent(l, Simple(SimpleScroll));
  }

  /** The simple stream is well formed: down and up, enter and exit pair up, and they never overlap. */
  lemma SimpleIsLegal(wasDown: bool, wasHovering: bool, down: bool, hovering: bool, scrolls: bool)
    requires !(down && hovering)
    ensures Leads(Listener({}, wasDown, wasHovering), SimpleEvents(wasDown, wasHovering, down, hovering, scrolls),
                  Listener({}, down, hovering))
  {
    hide Leads;
    var l0, l1 := Listener({}, wasDown, wasHovering), Listener({}, wasDown && down, wasHovering && hovering);
    var l2, l3 := Listener({}, down, wasHovering && hovering), Listener({}, down, hovering);
    LeaveIsLegal(wasDown, wasHovering, down, hovering);
    PressIsLegal(wasDown && down, down, wasHovering && hovering);
    SimpleHoverIsLegal(down, wasHovering && hovering, hovering);
    ScrollIsLegal(l3, scrolls);
    var leave, press := LeaveEvents(wasDown, wasHovering, down, hovering), PressEvents(wasDown, down);
    var hover := SimpleHoverEvents(wasHovering, hovering);
    assert press == PressEvents(wasDown && down, down);
    assert hover == SimpleHoverEvents(wasHovering && hovering, hovering);
    LeadsConcat(l0, leave, l1, press, l2);
    LeadsConcat(l0, leave + press, l2, hover, l3);
    LeadsConcat(l0, leave + press + hover, l3, if scrolls then [Simple(SimpleScroll)] else [], l3);
  }

  /** What the simple pointer tells, by its state before and after. */
  lemma WhatTheSimplePointerTells(wasDown: bool, wasHovering: bool, down: bool, hovering: bool, scrolls: bool)
    ensures var events := SimpleEvents(wasDown, wasHovering, down, hovering, scrolls);
            && (Simple(SimpleMove) in events <==> down) && (Simple(SimpleHoverMove) in events <==> hovering)
            && (Simple(SimpleScroll) in events <==> scrolls)
            && (Simple(SimpleDown) in events <==> down && !wasDown) && (Simple(SimpleUp) in events <==> wasDown && !down)
            && (Simple(SimpleHoverEnter) in events <==> hovering && !wasHovering)
            && (Simple(SimpleHoverExit) in events <==> wasHovering && !hovering)
  {
    hide LeaveEvents;
    LeaveParts(wasDown, wasHovering, down, hovering);
    Parts(LeaveEvents(wasDown, wasHovering, down, hovering), PressEvents(wasDown, down), SimpleHoverEvents(wasHovering, hovering),
          if scrolls then [Simple(SimpleScroll)] else []);
  }

  lemma LeaveParts(wasDown: bool, wasHovering: bool, down: bool, hovering: bool)
    ensures forall e :: e in LeaveEvents(wasDown, wasHovering, down, hovering) <==>
              (wasDown && !down && e == Simple(SimpleUp)) || (wasHovering && !hovering && e == Simple(SimpleHoverExit))
  {
  }
}
