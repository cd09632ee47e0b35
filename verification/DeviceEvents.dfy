/** The events of the event hub that announce devices, and what a reader may conclude from them. */
module DeviceEvents {

  const BUILT_IN_KEYBOARD_ID: int := 0
  const VIRTUAL_KEYBOARD_ID: int := -1
  const NO_BUILT_IN_KEYBOARD: int := -2

  /** `deviceId` is the id in the event; `device` is the hub's own id of the device, which differs from it
      when the device is reported as the built-in keyboard. */
  datatype Event =
    | Added(deviceId: int, device: int)
    | Removed(deviceId: int, device: int)
    | FinishedScan
    | Input(deviceId: int, device: int, code: int)

  /** The devices that have been announced and not taken back, all that were ever announced, and whether
      changes were announced that no scan end has closed yet. */
  datatype Reader = Reader(known: set<int>, seen: set<int>, changing: bool)

  const NOTHING: Reader := Reader({}, {}, false)

  ghost predicate Legal(r: Reader, e: Event) {
    match e
    case Added(id, d) => d !in r.known && (d !in r.seen || d == VIRTUAL_KEYBOARD_ID) && (id == d || id == BUILT_IN_KEYBOARD_ID)
    case Removed(id, d) => d in r.known && id == d
    case FinishedScan => true
    case Input(id, d, _) => d in r.known && !r.changing && (id == d || id == BUILT_IN_KEYBOARD_ID)
  }

  ghost function Hear(r: Reader, e: Event): Reader {
    match e
    case Added(_, d) => Reader(r.known + {d}, r.seen + {d}, true)
    case Removed(_, d) => Reader(r.known - {d}, r.seen, true)
    case FinishedScan => r.(changing := false)
    case Input(_, _, _) => r
  }

  ghost function Replay(events: seq<Event>): Reader {
    if events == [] then NOTHING else Hear(Replay(events[..|events| - 1]), events[|events| - 1])
  }

  ghost predicate AllLegal(events: seq<Event>) {
    forall i :: 0 <= i < |events| ==> Legal(Replay(events[..i]), events[i])
  }

  lemma OneMore(events: seq<Event>, e: Event)
    ensures Replay(events + [e]) == Hear(Replay(events), e)
    ensures AllLegal(events) && Legal(Replay(events), e) ==> AllLegal(events + [e])
  {
    var all := events + [e];
    assert all[..|events|] == events;
    if AllLegal(events) && Legal(Replay(events), e) {
      forall i | 0 <= i < |all|
        ensures Legal(Replay(all[..i]), all[i])
      {
        assert all[..i] == if i < |events| then events[..i] else events;
      }
    }
  }

  predicate Concerns(e: Event, d: int) {
    !e.FinishedScan? && e.device == d
  }

  /** The events of one device. */
  ghost function EventsOf(events: seq<Event>, d: int): seq<Event> {
    if events == [] then []
    else
      var rest := EventsOf(events[..|events| - 1], d);
      if Concerns(events[|events| - 1], d) then rest + [events[|events| - 1]] else rest
  }

  /** Added once, then input, then removed for good. */
  ghost predicate IsLifeOf(events: seq<Event>, known: bool, seen: bool) {
    if !seen then events == []
    else
      && events != [] && events[0].Added?
      && (if known then forall i :: 0 < i < |events| ==> events[i].Input?
          else |events| > 1 && events[|events| - 1].Removed? && forall i :: 0 < i < |events| - 1 ==> events[i].Input?)
  }

  /** In a legal stream the events of every device other than the virtual keyboard are one announcement,
      then input, then at most one removal and nothing after it. */
  lemma {:induction false} EachDeviceLivesOnce(events: seq<Event>, d: int)
    requires AllLegal(events) && d != VIRTUAL_KEYBOARD_ID
    ensures IsLifeOf(EventsOf(events, d), d in Replay(events).known, d in Replay(events).seen)
    ensures Replay(events).known <= Replay(events).seen
    decreases |events|
  {
    if events != [] {
      var before, e := events[..|events| - 1], events[|events| - 1];
      forall i | 0 <= i < |before|
        ensures Legal(Replay(before[..i]), before[i])
      {
        assert before[..i] == events[..i] && before[i] == events[i];
      }
      EachDeviceLivesOnce(before, d);
      assert Legal(Replay(before), e);
    }
  }

  /** The place of the next event after `k` that announces no change. */
  ghost predicate OnlyChangesBetween(events: seq<Event>, k: nat, n: nat) {
    k < n < |events| && forall i :: k <= i < n ==> events[i].Added? || events[i].Removed?
  }

  /** A block of announcements is followed at once by the end of the scan. */
  lemma BlocksAreClosed(events: seq<Event>, k: nat, n: nat)
    requires AllLegal(events) && OnlyChangesBetween(events, k, n)
    requires !(events[n].Added? || events[n].Removed?)
    ensures events[n].FinishedScan?
  {
    assert events[..n][..n - 1] == events[..n - 1] && events[..n][n - 1] == events[n - 1];
    assert Replay(events[..n]).changing;
    assert Legal(Replay(events[..n]), events[n]);
  }
}
