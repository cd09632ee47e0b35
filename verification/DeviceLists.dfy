/** The tables and lists of the event hub by device id, and what a reader has been told of them. */
module DeviceLists {
  import opened BitSets
  import opened DeviceEvents

  /** The set of used numbers, who uses which, and which were lost. */
  datatype Controllers = Controllers(used: set<nat>, owners: map<nat, int>, numberOf: map<int, nat>, lost: set<nat>)
  {
    /** Every number in use belongs to exactly one device or was lost; 0 means no number. */
    ghost predicate Fit() {
      && Below(used, MAX_POINTER_ID + 1)
      && (forall n :: n in used <==> n in owners || n in lost)
      && (forall n :: n in owners ==> n !in lost && owners[n] in numberOf && numberOf[owners[n]] == n + 1)
      && (forall id :: id in numberOf && numberOf[id] != 0 ==> numberOf[id] - 1 in owners && owners[numberOf[id] - 1] == id)
    }

    /** The lowest free number is taken; until it is given to a device it counts as lost. */
    function Take(): Controllers {
      var n := FirstUnmarked(used);
      this.(used := used + {n}, lost := lost + {n})
    }

    /** A device that was not there before gets a number that was taken for it, or none. */
    function Give(id: int, number: nat): Controllers {
      if number == 0 then this.(numberOf := numberOf[id := 0])
      else this.(numberOf := numberOf[id := number], owners := owners[number - 1 := id], lost := lost - {number - 1})
    }

    function Release(id: int): Controllers
      requires id in numberOf
    {
      var number := numberOf[id];
      if number == 0 then this.(numberOf := numberOf - {id})
      else this.(numberOf := numberOf - {id}, owners := owners - {number - 1}, used := used - {number - 1})
    }
  }

  lemma TakeFits(c: Controllers)
    requires c.Fit() && |c.used| <= MAX_POINTER_ID
    ensures c.Take().Fit()
  {
  }

  lemma GiveFits(c: Controllers, id: int, number: nat)
    requires c.Fit() && id !in c.numberOf && (number == 0 || number - 1 in c.lost)
    ensures c.Give(id, number).Fit()
    ensures c.Give(id, number).numberOf == c.numberOf[id := number] && c.Give(id, number).used == c.used
  {
  }

  lemma GiveLoses(c: Controllers, id: int, number: nat)
    ensures c.Give(id, number).lost == if number == 0 then c.lost else c.lost - {number - 1}
    ensures c.Give(id, number).numberOf == c.numberOf[id := number]
  {
  }

  lemma ReleaseFits(c: Controllers, id: int)
    requires c.Fit() && id in c.numberOf
    ensures c.Release(id).Fit() && c.Release(id).numberOf == c.numberOf - {id}
  {
  }

  /** No two connected controllers have the same number. */
  lemma NumbersDiffer(c: Controllers, i: int, j: int)
    requires c.Fit() && i in c.numberOf && j in c.numberOf && c.numberOf[i] == c.numberOf[j] != 0
    ensures i == j
  {
  }

  // ----- tables, lists and what the reader was told -----

  lemma SomeElement<T>(s: set<T>) returns (x: T)
    requires s != {}
    ensures x in s
  {
    x :| x in s;
  }

  lemma LeastFrom(ids: set<int>, any: int)
    requires any in ids
    ensures exists m :: m in ids && forall x :: x in ids ==> m <= x
    decreases |ids|
  {
    if exists other :: other in ids && other != any {
      var other :| other in ids && other != any;
      LeastFrom(ids - {any}, other);
      var m :| m in ids - {any} && forall x :: x in ids - {any} ==> m <= x;
      var least := if m <= any then m else any;
      forall x | x in ids
        ensures least <= x
      {
        assert x == any || x in ids - {any};
      }
    } else {
      assert forall x :: x in ids ==> any <= x;
    }
  }

  lemma LeastExists(ids: set<int>)
    requires ids != {}
    ensures exists m :: m in ids && forall x :: x in ids ==> m <= x
  {
    var any := SomeElement(ids);
    LeastFrom(ids, any);
  }

  /** The first key of a `KeyedVector`, whose keys are in ascending order. */
  function Least(ids: set<int>): (m: int)
    requires ids != {}
    ensures m in ids && forall x :: x in ids ==> m <= x
  {
    LeastExists(ids);
    var m :| m in ids && forall x | x in ids :: m <= x;
    m
  }

  lemma GreatestFrom(ids: set<int>, any: int)
    requires any in ids
    ensures exists m :: m in ids && forall x :: x in ids ==> x <= m
    decreases |ids|
  {
    if exists other :: other in ids && other != any {
      var other :| other in ids && other != any;
      GreatestFrom(ids - {any}, other);
      var m :| m in ids - {any} && forall x :: x in ids - {any} ==> x <= m;
      var greatest := if m <= any then any else m;
      forall x | x in ids
        ensures x <= greatest
      {
        assert x == any || x in ids - {any};
      }
    } else {
      assert forall x :: x in ids ==> x <= any;
    }
  }

  lemma GreatestExists(ids: set<int>)
    requires ids != {}
    ensures exists m :: m in ids && forall x :: x in ids ==> x <= m
  {
    var any := SomeElement(ids);
    GreatestFrom(ids, any);
  }

  /** The last key. */
  function Greatest(ids: set<int>): (m: int)
    requires ids != {}
    ensures m in ids && forall x :: x in ids ==> x <= m
  {
    GreatestExists(ids);
    var m :| m in ids && forall x | x in ids :: x <= m;
    m
  }

  ghost predicate Distinct(ids: seq<int>) {
    forall i, j :: 0 <= i < j < |ids| ==> ids[i] != ids[j]
  }

  function Without(ids: seq<int>, k: nat): seq<int>
    requires k < |ids|
  {
    ids[..k] + ids[k + 1..]
  }

  lemma WithoutOne(ids: seq<int>, k: nat)
    requires k < |ids| && Distinct(ids)
    ensures Distinct(Without(ids, k))
    ensures forall x :: x in Without(ids, k) <==> x in ids && x != ids[k]
  {
    forall x | x in ids && x != ids[k]
      ensures x in Without(ids, k)
    {
      var i :| 0 <= i < |ids| && ids[i] == x;
      assert if i < k then Without(ids, k)[i] == x else Without(ids, k)[i - 1] == x;
    }
  }

  lemma WithoutFirst(ids: seq<int>)
    requires ids != [] && Distinct(ids)
    ensures Distinct(ids[1..]) && forall x :: x in ids[1..] <==> x in ids && x != ids[0]
  {
    assert Without(ids, 0) == ids[1..];
    WithoutOne(ids, 0);
  }

  ghost function PlaceOf(ids: seq<int>, id: int): (k: nat)
    requires id in ids
    ensures k < |ids| && ids[k] == id
  {
    var k :| 0 <= k < |ids| && ids[k] == id;
    k
  }

  function RemovedEvents(ids: seq<int>): seq<Event> {
    seq(|ids|, i requires 0 <= i < |ids| => Removed(ids[i], ids[i]))
  }

  function InputEvents(deviceId: int, id: int, codes: seq<int>): seq<Event> {
    seq(|codes|, i requires 0 <= i < |codes| => Input(deviceId, id, codes[i]))
  }

  function AddedEvents(ids: seq<int>, builtInKeyboardId: int): seq<Event> {
    seq(|ids|, i requires 0 <= i < |ids| => Added(if ids[i] == builtInKeyboardId then BUILT_IN_KEYBOARD_ID else ids[i], ids[i]))
  }

  /** The connected devices, the contents of the opening and the closing list, the next id, and the events so
      far; `scanDue` says that the end of a scan has to be reported. */
  datatype Hub = Hub(
    devices: set<int>, opening: seq<int>, closing: seq<int>, nextDeviceId: int, builtInKeyboardId: int,
    outbox: seq<Event>, scanDue: bool)
  {
    /** The opening list is inside the table of devices, the closing list outside it; no device is in a list
        twice. */
    ghost predicate Listed() {
      && Distinct(opening) && Distinct(closing)
      && (forall id :: id in opening ==> id in devices)
      && forall id :: id in closing ==> id !in devices
    }

    ghost predicate Numbered() {
      && 1 <= nextDeviceId
      && (forall id :: id in devices ==> id == VIRTUAL_KEYBOARD_ID || 1 <= id < nextDeviceId)
      && (forall id :: id in closing ==> (id == VIRTUAL_KEYBOARD_ID || 1 <= id < nextDeviceId) && id != builtInKeyboardId)
      && (builtInKeyboardId == NO_BUILT_IN_KEYBOARD || 1 <= builtInKeyboardId < nextDeviceId)
    }

    /** A reader has been told of the devices that are connected and not waiting to be announced, and of
        those that wait to be taken back. */
    ghost predicate IsKnown(id: int) {
      (id in devices && id !in opening) || id in closing
    }

    ghost predicate Told() {
      && AllLegal(outbox) && (forall id :: id in Replay(outbox).known <==> IsKnown(id))
      && (Replay(outbox).changing ==> scanDue)
      && (forall id :: id in Replay(outbox).seen ==> id < nextDeviceId)
      && forall id :: id in opening ==> id == VIRTUAL_KEYBOARD_ID || id !in Replay(outbox).seen
    }

    ghost predicate Fit() {
      Listed() && Numbered() && Told()
    }

    /** The id under which a device is reported. */
    function Alias(id: int): int {
      if id == builtInKeyboardId then BUILT_IN_KEYBOARD_ID else id
    }

    /** The next device gets an id, and becomes the built-in keyboard if it may and there is none. */
    function WithNewId(eligibleKeyboard: bool): Hub {
      this.(nextDeviceId := nextDeviceId + 1,
            builtInKeyboardId := if eligibleKeyboard && builtInKeyboardId == NO_BUILT_IN_KEYBOARD then nextDeviceId else builtInKeyboardId)
    }

    function Opened(id: int): Hub {
      this.(devices := devices + {id}, opening := [id] + opening)
    }

    /** A device goes; it can no longer be the built-in keyboard. */
    function Gone(id: int): Hub {
      this.(devices := devices - {id}, builtInKeyboardId := if id == builtInKeyboardId then NO_BUILT_IN_KEYBOARD else builtInKeyboardId)
    }

    /** A device that was never announced goes without a trace; another one waits to be taken back. */
    ghost function Closed(id: int): Hub {
      if id in opening then Gone(id).(opening := Without(opening, PlaceOf(opening, id)))
      else Gone(id).(closing := [id] + closing)
    }

    /** All devices closed, the last key first. */
    ghost function AllClosed(): Hub
      decreases |devices|
    {
      if devices == {} then this else Closed(Greatest(devices)).AllClosed()
    }

    function TakenBack(): Hub
      requires closing != []
    {
      this.(closing := closing[1..], outbox := outbox + [Removed(closing[0], closing[0])], scanDue := true)
    }

    function Announced(): Hub
      requires opening != []
    {
      this.(opening := opening[1..], outbox := outbox + [Added(Alias(opening[0]), opening[0])], scanDue := true)
    }

    /** All closing devices taken back, and all opening ones announced. */
    function AllTakenBack(): Hub {
      this.(closing := [], outbox := outbox + RemovedEvents(closing), scanDue := scanDue || closing != [])
    }

    function AllAnnounced(): Hub {
      this.(opening := [], outbox := outbox + AddedEvents(opening, builtInKeyboardId), scanDue := scanDue || opening != [])
    }

    function ScanEnded(): Hub {
      this.(outbox := outbox + [FinishedScan], scanDue := false)
    }

    function WithInput(id: int, code: int): Hub {
      this.(outbox := outbox + [Input(Alias(id), id, code)])
    }
  }

  const NO_DEVICES: Hub := Hub({}, [], [], 1, NO_BUILT_IN_KEYBOARD, [], false)

  lemma NothingYet()
    ensures NO_DEVICES.Fit() && Controllers({}, map[], map[], {}).Fit()
  {
  }

  lemma NewIdFits(h: Hub, eligibleKeyboard: bool)
    requires h.Fit()
    ensures 1 <= h.nextDeviceId && h.nextDeviceId !in h.devices && h.nextDeviceId !in h.closing && h.nextDeviceId !in Replay(h.outbox).seen
    ensures h.WithNewId(eligibleKeyboard).Fit()
  {
  }

  lemma OpenedFits(h: Hub, id: int)
    requires h.Fit() && id !in h.devices && id !in h.closing
    requires id == VIRTUAL_KEYBOARD_ID || (1 <= id < h.nextDeviceId && id !in Replay(h.outbox).seen)
    ensures h.Opened(id).Fit() && id !in h.opening
  {
    hide AllLegal, Replay;
    forall x
      ensures h.Opened(id).IsKnown(x) == h.IsKnown(x)
    {
    }
  }

  lemma ClosedFits(h: Hub, id: int)
    requires h.Fit() && id in h.devices
    ensures h.Closed(id).Fit()
    ensures h.Closed(id) == h.Gone(id).(opening := h.Closed(id).opening, closing := h.Closed(id).closing)
    ensures forall x :: h.Closed(id).IsKnown(x) == h.IsKnown(x)
    ensures forall k :: 0 <= k < |h.opening| && h.opening[k] == id ==> k == PlaceOf(h.opening, id)
    ensures h.Listed() && id !in h.closing
  {
    hide AllLegal, Replay;
    if id in h.opening {
      WithoutOne(h.opening, PlaceOf(h.opening, id));
    }
    forall x
      ensures h.Closed(id).IsKnown(x) == h.IsKnown(x)
    {
    }
  }

  lemma {:induction false} AllClosedFits(h: Hub)
    requires h.Fit()
    ensures var g := h.AllClosed();
            && g.Fit() && g.devices == {} && g.opening == [] && g.outbox == h.outbox && g.scanDue == h.scanDue
            && g.nextDeviceId == h.nextDeviceId && forall x :: x in g.closing <==> h.IsKnown(x)
    decreases |h.devices|
  {
    hide AllLegal, Replay, Hub.Numbered, Hub.Told;
    if h.devices != {} {
      ClosedFits(h, Greatest(h.devices));
      AllClosedFits(h.Closed(Greatest(h.devices)));
    } else {
      OpeningIsInside(h);
    }
  }

  lemma OpeningIsInside(h: Hub)
    requires h.Listed()
    ensures h.opening != [] ==> h.devices != {}
  {
    if h.opening != [] {
      assert h.opening[0] in h.opening;
      assert h.opening[0] in h.devices;
    }
  }

  /** Taking back the first closing device.  It is never the built-in keyboard any more. */
  lemma TakenBackFits(h: Hub)
    requires h.Fit() && h.closing != []
    ensures h.TakenBack().Fit() && h.Alias(h.closing[0]) == h.closing[0]
  {
    var id := h.closing[0];
    WithoutFirst(h.closing);
    assert h.IsKnown(id);
    OneMore(h.outbox, Removed(id, id));
    hide AllLegal, Replay, Distinct;
    forall x
      ensures h.TakenBack().IsKnown(x) <==> h.IsKnown(x) && x != id
    {
    }
  }

  lemma AnnouncedListed(h: Hub)
    requires h.Listed() && h.opening != []
    ensures h.Announced().Listed()
    ensures forall x :: h.Announced().IsKnown(x) <==> h.IsKnown(x) || x == h.opening[0]
    ensures h.opening[0] in h.opening && h.opening[0] in h.devices && !h.IsKnown(h.opening[0])
    ensures forall x :: x in h.opening[1..] <==> x in h.opening && x != h.opening[0]
  {
    WithoutFirst(h.opening);
    assert h.opening[0] in h.opening;
  }

  /** One more event that the reader may hear. */
  lemma OneMoreTold(h: Hub, e: Event)
    requires h.Told() && Legal(Replay(h.outbox), e)
    ensures AllLegal(h.outbox + [e]) && Replay(h.outbox + [e]) == Hear(Replay(h.outbox), e)
  {
    hide AllLegal, Replay, Legal, Hear, Hub.IsKnown;
    OneMore(h.outbox, e);
  }

  lemma AnnouncedTold(h: Hub)
    requires h.Listed() && h.Numbered() && h.Told() && h.opening != []
    ensures h.Announced().Told()
  {
    hide AllLegal, Replay, Hub.Listed, Hub.IsKnown;
    AnnouncedListed(h);
    var id := h.opening[0];
    assert h.IsKnown(id) <==> id in Replay(h.outbox).known;
    OneMoreTold(h, Added(h.Alias(id), id));
  }

  lemma AnnouncedNumbered(h: Hub)
    requires h.Numbered() && h.opening != []
    ensures h.Announced().Numbered()
  {
  }

  /** Announcing the first opening device. */
  lemma AnnouncedFits(h: Hub)
    requires h.Fit() && h.opening != []
    ensures h.Announced().Fit()
  {
    hide AllLegal, Replay, Hub.Listed, Hub.Numbered, Hub.Told, Hub.IsKnown;
    AnnouncedListed(h);
    AnnouncedNumbered(h);
    AnnouncedTold(h);
  }

  lemma AllTakenBackStep(h: Hub)
    requires h.closing != []
    ensures h.TakenBack().AllTakenBack() == h.AllTakenBack()
  {
    assert RemovedEvents(h.closing) == [Removed(h.closing[0], h.closing[0])] + RemovedEvents(h.closing[1..]);
  }

  lemma AllAnnouncedStep(h: Hub)
    requires h.opening != []
    ensures h.Announced().AllAnnounced() == h.AllAnnounced()
  {
    assert AddedEvents(h.opening, h.builtInKeyboardId)
        == [Added(h.Alias(h.opening[0]), h.opening[0])] + AddedEvents(h.opening[1..], h.builtInKeyboardId);
  }

  /** With both lists empty the reader knows exactly the connected devices. */
  lemma KnowsTheDevices(h: Hub)
    requires h.Fit() && h.opening == [] && h.closing == []
    ensures Replay(h.outbox).known == h.devices
    ensures !h.scanDue ==> !Replay(h.outbox).changing
  {
    hide AllLegal, Replay;
    forall x
      ensures x in Replay(h.outbox).known <==> x in h.devices
    {
      assert x in Replay(h.outbox).known <==> h.IsKnown(x);
    }
  }

  lemma ScanDueFits(h: Hub)
    requires h.Fit()
    ensures h.(scanDue := true).Fit()
  {
    hide AllLegal, Replay;
    forall x
      ensures h.(scanDue := true).IsKnown(x) == h.IsKnown(x)
    {
    }
  }

  lemma ScanEndedFits(h: Hub)
    requires h.Fit()
    ensures h.ScanEnded().Fit() && !Replay(h.ScanEnded().outbox).changing
  {
    OneMore(h.outbox, FinishedScan);
    hide AllLegal, Replay;
    forall x
      ensures h.ScanEnded().IsKnown(x) == h.IsKnown(x)
    {
    }
  }

  /** Input of a device that is connected and announced, while no announcement is open. */
  lemma InputFits(h: Hub, id: int, code: int)
    requires h.Fit() && id in h.devices && id !in h.opening && !Replay(h.outbox).changing
    ensures h.WithInput(id, code).Fit() && Replay(h.WithInput(id, code).outbox) == Replay(h.outbox)
  {
    hide AllLegal, Replay, Distinct;
    assert h.IsKnown(id);
    OneMoreTold(h, Input(h.Alias(id), id, code));
    forall x
      ensures h.WithInput(id, code).IsKnown(x) == h.IsKnown(x)
    {
    }
  }
}
