/** What the event hub makes of what it is told: device files that come and go, and the items of a poll. */
module DeviceChanges {
  import opened DeviceEvents
  import opened DeviceLists
  import opened Options

  /** What opening a device file finds: whether the file opens and is not excluded, whether it is a device the
      hub handles, whether it may become the built-in keyboard, whether it is a game controller, and whether it
      can be registered for polling. */
  datatype OpenRequest = OpenRequest(
    path: string, opens: bool, recognized: bool, eligibleKeyboard: bool, isController: bool, registers: bool)

  datatype Change = Created(request: OpenRequest) | Deleted(path: string)

  /** One item of a poll result. */
  datatype Item =
    | Notified(changes: seq<Change>)
    | Woken
    | Readable(device: int, codes: seq<int>)
    | Vanished(device: int)
    | NothingToRead(device: int)

  /** The result of one wait: items, or a timeout; meanwhile somebody may have asked for a reopen. */
  datatype Poll = Poll(items: seq<Item>, timedOut: bool, reopen: bool)

  /** The device lists together with the path of each connected device. */
  datatype World = World(hub: Hub, paths: map<int, string>) {
    /** A file that opens uses up a device id even if no device is added for it. */
    function Opened(request: OpenRequest): World {
      var numbered := hub.WithNewId(request.recognized && request.eligibleKeyboard);
      if !request.opens then this
      else if !request.recognized || !request.registers then this.(hub := numbered)
      else World(numbered.Opened(hub.nextDeviceId), paths[hub.nextDeviceId := request.path])
    }

    ghost function Closed(id: int): World {
      World(hub.Closed(id), paths - {id})
    }

    function At(path: string): set<int> {
      set id | id in paths && paths[id] == path
    }

    /** One change in the device directory.  Of several devices with the path the one with the least id goes. */
    ghost function Changed(change: Change): World {
      match change
      case Created(request) => Opened(request)
      case Deleted(path) => if At(path) == {} then this else Closed(Least(At(path)))
    }

    ghost function AllChanged(changes: seq<Change>): World {
      if changes == [] then this else AllChanged(changes[..|changes| - 1]).Changed(changes[|changes| - 1])
    }

    ghost function AllOpened(requests: seq<OpenRequest>): World {
      if requests == [] then this else AllOpened(requests[..|requests| - 1]).Opened(requests[|requests| - 1])
    }

    /** A scan of the device directory makes sure of the virtual keyboard. */
    ghost function Scanned(found: seq<OpenRequest>): World {
      var all := AllOpened(found);
      if VIRTUAL_KEYBOARD_ID in all.paths then all
      else World(all.hub.Opened(VIRTUAL_KEYBOARD_ID), all.paths[VIRTUAL_KEYBOARD_ID := VIRTUAL_KEYBOARD_PATH])
    }

    /** One item of a poll: input is passed on, and a device that vanished is closed. */
    ghost function Polled(item: Item): World {
      match item
      case Readable(id, codes) =>
        if id in paths then this.(hub := hub.(outbox := hub.outbox + InputEvents(hub.Alias(id), id, codes))) else this
      case Vanished(id) => if id in paths then Closed(id) else this
      case _ => this
    }

    ghost function AllPolled(items: seq<Item>): World {
      if items == [] then this else AllPolled(items[..|items| - 1]).Polled(items[|items| - 1])
    }

    /** The reader is told of all changes, and of those a scan finds now if one is due. */
    ghost function Announced(found: seq<OpenRequest>, scans: bool): World {
      var back := this.(hub := hub.AllTakenBack());
      var scanned := if scans then back.Scanned(found).Due() else back;
      var told := scanned.hub.AllAnnounced();
      scanned.(hub := if told.scanDue then told.ScanEnded() else told)
    }

    function Due(): World {
      this.(hub := hub.(scanDue := true))
    }

    /** One turn of the reader's call: everything is announced, then the items of the last poll are worked
        off, and changes in the device directory come last. */
    ghost function Turned(found: seq<OpenRequest>, scans: bool, items: seq<Item>): World {
      var polled := Announced(found, scans).AllPolled(items);
      match Notice(items)
      case None => polled
      case Some(changes) => polled.AllChanged(changes)
    }

    /** Several turns, each with its items; only the first one can scan. */
    ghost function AllTurned(found: seq<OpenRequest>, scans: bool, turns: seq<seq<Item>>): World {
      if turns == [] then this
      else
        var n := |turns| - 1;
        AllTurned(found, scans, turns[..n]).Turned(found, scans && n == 0, turns[n])
    }
  }

  const VIRTUAL_KEYBOARD_PATH: string := "<virtual>"

  /** The changes in the device directory that a poll tells of. */
  ghost function Notice(items: seq<Item>): Option<seq<Change>> {
    if items == [] then None
    else match items[|items| - 1]
      case Notified(changes) => Some(changes)
      case _ => Notice(items[..|items| - 1])
  }

  ghost function Joined(turns: seq<seq<Item>>): seq<Item> {
    if turns == [] then [] else Joined(turns[..|turns| - 1]) + turns[|turns| - 1]
  }

  ghost function ItemsOf(polls: seq<Poll>): seq<Item> {
    if polls == [] then [] else ItemsOf(polls[..|polls| - 1]) + polls[|polls| - 1].items
  }

  lemma NoTurns(w: World, found: seq<OpenRequest>, scans: bool)
    ensures w.AllTurned(found, scans, []) == w && Joined([]) == []
  {
  }

  lemma OneMoreTurn(w: World, found: seq<OpenRequest>, scans: bool, turns: seq<seq<Item>>, items: seq<Item>)
    ensures w.AllTurned(found, scans, turns + [items]) == w.AllTurned(found, scans, turns).Turned(found, scans && turns == [], items)
    ensures Joined(turns + [items]) == Joined(turns) + items
  {
    hide World.Turned;
    assert (turns + [items])[..|turns|] == turns;
  }

  /** One more item of a poll is worked off. */
  lemma OneMoreItem(w: World, items: seq<Item>, n: nat)
    requires n < |items|
    ensures w.AllPolled(items[..n + 1]) == w.AllPolled(items[..n]).Polled(items[n])
    ensures Notice(items[..n + 1]) == if items[n].Notified? then Some(items[n].changes) else Notice(items[..n])
    ensures Woken in items[..n + 1] <==> Woken in items[..n] || items[n] == Woken
  {
    hide World.Polled;
    assert items[..n + 1][..n] == items[..n] && items[..n + 1] == items[..n] + [items[n]];
  }

  /** The items pending at first and those of the polls so far are worked off in order, up to the pending ones. */
  ghost predicate WorkedOff(turns: seq<seq<Item>>, pending: seq<Item>, first: seq<Item>, polls: seq<Poll>, used: nat) {
    used <= |polls| && Joined(turns) + pending == first + ItemsOf(polls[..used])
  }

  lemma NothingWorkedOff(first: seq<Item>, polls: seq<Poll>)
    ensures WorkedOff([], first, first, polls, 0)
  {
    assert Joined([]) + first == first + ItemsOf(polls[..0]);
  }

  lemma TurnTaken(turns: seq<seq<Item>>, pending: seq<Item>, more: seq<seq<Item>>, first: seq<Item>, polls: seq<Poll>, used: nat)
    requires WorkedOff(turns, pending, first, polls, used) && Joined(more) == Joined(turns) + pending
    ensures WorkedOff(more, [], first, polls, used)
  {
    assert Joined(more) + [] == Joined(more);
  }

  lemma PollTaken(turns: seq<seq<Item>>, first: seq<Item>, polls: seq<Poll>, used: nat)
    requires WorkedOff(turns, [], first, polls, used) && used < |polls|
    ensures WorkedOff(turns, polls[used].items, first, polls, used + 1)
  {
    assert polls[..used + 1][..used] == polls[..used];
    assert Joined(turns) + [] == Joined(turns);
    assert first + (ItemsOf(polls[..used]) + polls[used].items) == first + ItemsOf(polls[..used]) + polls[used].items;
  }
}
