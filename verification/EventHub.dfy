/** The event hub: devices come and go, and each call returns the events that report it. */
module EventHub {
  import opened BitSets
  import opened DeviceChanges
  import opened DeviceLives
  import opened DeviceEvents
  import opened DeviceLists
  import opened Options

  /** A `Device` node; `next` links it into the opening or the closing list. */
  class Device {
    const id: int
    const path: string
    const controllerNumber: nat
    var next: Device?

    constructor (id: int, path: string, controllerNumber: nat)
      ensures this.id == id && this.path == path && this.controllerNumber == controllerNumber && next == null
    {
      this.id, this.path, this.controllerNumber, next := id, path, controllerNumber, null;
    }
  }

  function NodeAt(ids: seq<int>, i: nat, nodes: map<int, Device>): Device? {
    if i < |ids| && ids[i] in nodes then nodes[ids[i]] else null
  }

  /** From `head`, the `next` links run through the nodes with these ids and end. */
  ghost predicate IsList(head: Device?, ids: seq<int>, nodes: map<int, Device>, live: set<Device>)
    reads live`next
  {
    && (forall i :: 0 <= i < |ids| ==> ids[i] in nodes && nodes[ids[i]] in live && nodes[ids[i]].id == ids[i])
    && head == NodeAt(ids, 0, nodes)
    && forall i :: 0 <= i < |ids| ==> nodes[ids[i]].next == NodeAt(ids, i + 1, nodes)
  }

  lemma Prepend(head: Device?, ids: seq<int>, nodes: map<int, Device>, live: set<Device>, d: Device, nodes': map<int, Device>)
    requires IsList(head, ids, nodes, live) && d.id !in ids && d in live && d.next == head
    requires nodes' == nodes[d.id := d]
    ensures IsList(d, [d.id] + ids, nodes', live)
  {
    var longer := [d.id] + ids;
    forall i | 0 <= i < |longer|
      ensures nodes'[longer[i]].next == NodeAt(longer, i + 1, nodes')
    {
      if i > 0 {
        assert nodes[ids[i - 1]].next == NodeAt(ids, i, nodes);
      }
      if i + 1 < |longer| {
        assert longer[i + 1] == ids[i];
      }
    }
  }

  lemma Tail(head: Device?, ids: seq<int>, nodes: map<int, Device>, live: set<Device>)
    requires IsList(head, ids, nodes, live) && ids != []
    ensures head == nodes[ids[0]] && IsList(nodes[ids[0]].next, ids[1..], nodes, live)
  {
    forall i | 0 <= i < |ids[1..]|
      ensures nodes[ids[1..][i]].next == NodeAt(ids[1..], i + 1, nodes)
    {
      assert nodes[ids[i + 1]].next == NodeAt(ids, i + 1 + 1, nodes);
    }
  }

  lemma NodeWithout(ids: seq<int>, nodes: map<int, Device>, k: nat, nodes': map<int, Device>, i: nat)
    requires Distinct(ids) && k < |ids|
    requires forall i :: 0 <= i < |ids| && i != k ==> ids[i] in nodes && ids[i] in nodes' && nodes'[ids[i]] == nodes[ids[i]]
    ensures NodeAt(Without(ids, k), i, nodes') == NodeAt(ids, if i < k then i else i + 1, nodes)
    ensures i < |ids| - 1 ==> Without(ids, k)[i] == ids[if i < k then i else i + 1]
  {
  }

  lemma StartOfList(head: Device?, ids: seq<int>, nodes: map<int, Device>, live: set<Device>)
    requires IsList(head, ids, nodes, live)
    ensures head != null <==> ids != []
    ensures head != null ==> head.id == ids[0]
  {
  }

  /** The list with one node taken out: the node before it, or the head, now leads past it. */
  lemma Unlinked(head: Device?, ids: seq<int>, nodes: map<int, Device>, live: set<Device>, k: nat, nodes': map<int, Device>, live': set<Device>)
    requires Distinct(ids) && k < |ids|
    requires forall i :: 0 <= i < |ids| ==> ids[i] in nodes && nodes[ids[i]].id == ids[i]
    requires forall i :: 0 <= i < |ids| && i != k ==> ids[i] in nodes' && nodes'[ids[i]] == nodes[ids[i]] && nodes[ids[i]] in live'
    requires head == NodeAt(ids, if k == 0 then 1 else 0, nodes)
    requires forall i :: 0 <= i < |ids| && i != k ==> nodes[ids[i]].next == NodeAt(ids, if i + 1 == k then i + 2 else i + 1, nodes)
    ensures IsList(head, Without(ids, k), nodes', live')
  {
    hide NodeAt, Distinct;
    var rest := Without(ids, k);
    NodeWithout(ids, nodes, k, nodes', 0);
    forall i | 0 <= i < |rest|
      ensures rest[i] in nodes' && nodes'[rest[i]] in live' && nodes'[rest[i]].id == rest[i]
      ensures nodes'[rest[i]].next == NodeAt(rest, i + 1, nodes')
    {
      NodeWithout(ids, nodes, k, nodes', i);
      NodeWithout(ids, nodes, k, nodes', i + 1);
      var j := if i < k then i else i + 1;
      assert nodes[ids[j]].next == NodeAt(ids, if j + 1 == k then j + 2 else j + 1, nodes);
    }
  }

  /** A list does not depend on nodes that are not in it. */
  lemma OtherNodes(head: Device?, ids: seq<int>, nodes: map<int, Device>, live: set<Device>, nodes': map<int, Device>, live': set<Device>)
    requires IsList(head, ids, nodes, live)
    requires forall i :: 0 <= i < |ids| ==> ids[i] in nodes' && nodes'[ids[i]] == nodes[ids[i]] && nodes[ids[i]] in live'
    ensures IsList(head, ids, nodes', live')
  {
    forall i | 0 <= i < |ids|
      ensures nodes'[ids[i]].next == NodeAt(ids, i + 1, nodes')
    {
      assert nodes[ids[i]].next == NodeAt(ids, i + 1, nodes);
    }
  }

  /** The table has each device under its id, and the device knows its controller number. */
  ghost predicate Stored(devices: map<int, Device>, live: set<Device>, ids: set<int>, numberOf: map<int, nat>) {
    && ids == devices.Keys && numberOf.Keys == devices.Keys
    && forall id :: id in devices ==> devices[id].id == id && devices[id] in live && devices[id].controllerNumber == numberOf[id]
  }

  lemma StoredWith(devices: map<int, Device>, live: set<Device>, ids: set<int>, numberOf: map<int, nat>, d: Device)
    requires Stored(devices, live, ids, numberOf)
    ensures Stored(devices[d.id := d], live + {d}, ids + {d.id}, numberOf[d.id := d.controllerNumber])
    ensures ids == devices.Keys && (d.id in numberOf <==> d.id in devices)
  {
  }

  lemma StoredIds(devices: map<int, Device>, live: set<Device>, ids: set<int>, numberOf: map<int, nat>)
    requires Stored(devices, live, ids, numberOf)
    ensures ids == devices.Keys == numberOf.Keys
    ensures forall id :: id in devices ==> devices[id].id == id && devices[id] in live && devices[id].controllerNumber == numberOf[id]
  {
  }

  lemma StoredWithout(devices: map<int, Device>, live: set<Device>, ids: set<int>, numberOf: map<int, nat>, id: int)
    requires Stored(devices, live, ids, numberOf)
    ensures Stored(devices - {id}, live, ids - {id}, numberOf - {id})
    ensures id in devices ==> id in numberOf && devices[id].id == id && devices[id] in live && devices[id].controllerNumber == numberOf[id]
  {
  }

  /** The lowest free controller number; 0 when all are in use. */
  function NextNumber(used: set<nat>): nat {
    if |used| > MAX_POINTER_ID then 0 else FirstUnmarked(used) + 1
  }

  function Taken(used: set<nat>): set<nat> {
    if |used| > MAX_POINTER_ID then used else used + {FirstUnmarked(used)}
  }

  /** The path of each device in the table. */
  ghost function PathsOf(devices: map<int, Device>): map<int, string> {
    map id | id in devices :: devices[id].path
  }

  lemma PathsWith(devices: map<int, Device>, d: Device)
    ensures PathsOf(devices[d.id := d]) == PathsOf(devices)[d.id := d.path]
  {
  }

  lemma PathsWithout(devices: map<int, Device>, id: int)
    ensures PathsOf(devices - {id}) == PathsOf(devices) - {id}
  {
  }

  lemma OpenedTies(h: Hub, id: int)
    ensures var g := h.Opened(id);
            && g == h.(devices := h.devices + {id}, opening := [id] + h.opening)
            && (id !in h.devices && h.Fit() ==> id !in h.opening)
  {
    hide AllLegal, Replay;
  }

  lemma NoItems(w: World)
    ensures w.AllPolled([]) == w && Notice([]) == None
  {
  }

  /** What closing a device leaves as it was. */
  lemma ClosedTies(h: Hub, id: int)
    ensures var g := h.Closed(id);
            && g.nextDeviceId == h.nextDeviceId && g.outbox == h.outbox && g.scanDue == h.scanDue
            && g.devices == h.devices - {id} && g.builtInKeyboardId == h.Gone(id).builtInKeyboardId
  {
  }

  class EventHub {
    var devices: map<int, Device>
    var openingDevices: Device?
    var closingDevices: Device?
    var needToReopenDevices: bool
    var needToScanDevices: bool
    var needToSendFinishedDeviceScan: bool
    var builtInKeyboardId: int
    var nextDeviceId: int
    var controllerNumbers: set<nat>
    var pendingItems: seq<Item>
    var pendingINotify: bool
    var pendingChanges: seq<Change>

    /** All events returned so far. */
    var outbox: seq<Event>

    /** The tables and lists by id, the controller numbers with their owners, and the nodes: those of the
        closing devices by id, and all that were made. */
    ghost var hub: Hub
    ghost var controllers: Controllers
    ghost var closingNodes: map<int, Device>
    ghost var live: set<Device>

    ghost predicate Tied()
      reads this`hub, this`controllers, this`nextDeviceId, this`builtInKeyboardId, this`outbox,
            this`needToSendFinishedDeviceScan, this`controllerNumbers
    {
      && hub.nextDeviceId == nextDeviceId && hub.builtInKeyboardId == builtInKeyboardId
      && hub.outbox == outbox && hub.scanDue == needToSendFinishedDeviceScan && controllers.used == controllerNumbers
    }

    /** Both lists are acyclic and run through exactly the nodes they should. */
    ghost predicate Linked()
      reads this`openingDevices, this`closingDevices, this`hub, this`devices, this`closingNodes, this`live, live`next
    {
      IsList(openingDevices, hub.opening, devices, live) && IsList(closingDevices, hub.closing, closingNodes, live)
    }

    ghost predicate Valid()
      reads this`hub, this`controllers, this`nextDeviceId, this`builtInKeyboardId, this`outbox, this`needToSendFinishedDeviceScan,
            this`controllerNumbers, this`openingDevices, this`closingDevices, this`devices, this`closingNodes, this`live, live`next
    {
      hub.Fit() && controllers.Fit() && Tied() && Linked() && Stored(devices, live, hub.devices, controllers.numberOf)
    }

    ghost function Now(): World
      reads this`hub, this`devices
    {
      World(hub, PathsOf(devices))
    }

    constructor ()
      ensures Valid() && hub == NO_DEVICES && fresh(live) && controllers == Controllers({}, map[], map[], {}) && controllerNumbers == {}
      ensures needToScanDevices && !needToReopenDevices && pendingItems == [] && !pendingINotify
    {
      devices, openingDevices, closingDevices := map[], null, null;
      needToReopenDevices, needToScanDevices, needToSendFinishedDeviceScan := false, true, false;
      builtInKeyboardId, nextDeviceId, controllerNumbers := NO_BUILT_IN_KEYBOARD, 1, {};
      pendingItems, pendingChanges, pendingINotify, outbox := [], [], false, [];
      hub := NO_DEVICES;
      controllers := Controllers({}, map[], map[], {});
      closingNodes, live := map[], {};
      NothingYet();
      hide Hub.Fit, Controllers.Fit;
    }

    lemma NextIdIs()
      requires Valid()
      ensures nextDeviceId == hub.nextDeviceId
    {
      hide Hub.Fit, Controllers.Fit, IsList, Stored;
    }

    // ----- adding devices -----

    /** `addDeviceLocked`. */
    method AddDevice(device: Device)
      requires Valid() && device !in live && device.id !in devices && device.id !in hub.closing
      requires device.id == VIRTUAL_KEYBOARD_ID || (1 <= device.id < nextDeviceId && device.id !in Replay(outbox).seen)
      requires device.controllerNumber == 0 || device.controllerNumber - 1 in controllers.lost
      modifies this`devices, this`openingDevices, this`hub, this`controllers, this`live, device`next
      ensures Valid()
      ensures hub == old(hub).Opened(device.id) && devices == old(devices)[device.id := device] && live == old(live) + {device}
      ensures controllers == old(controllers).Give(device.id, device.controllerNumber)
    {
      hide Replay, Hub.Fit, Hub.Opened, Hub.IsKnown, Controllers.Fit, Controllers.Give, IsList, Stored;
      StoredWith(devices, live, hub.devices, controllers.numberOf, device);
      OpenedTies(hub, device.id);
      OpenedFits(hub, device.id);
      GiveFits(controllers, device.id, device.controllerNumber);
      LinkOpening(device);
      devices := devices[device.id := device];
      live := live + {device};
      hub := hub.Opened(device.id);
      controllers := controllers.Give(device.id, device.controllerNumber);
      assert hub.Fit() && controllers.Fit();
      assert Tied();
      assert Linked();
    }

    method LinkOpening(device: Device)
      requires Linked() && device !in live && device.id !in hub.opening && device.id !in hub.closing
      modifies this`openingDevices, device`next
      ensures IsList(openingDevices, [device.id] + hub.opening, devices[device.id := device], live + {device})
      ensures IsList(closingDevices, hub.closing, closingNodes, live + {device})
    {
      device.next := openingDevices;
      OtherNodes(closingDevices, hub.closing, closingNodes, live, closingNodes, live + {device});
      OtherNodes(openingDevices, hub.opening, devices, live, devices, live + {device});
      Prepend(openingDevices, hub.opening, devices, live + {device}, device, devices[device.id := device]);
      openingDevices := device;
    }

    /** `getNextControllerNumberLocked`: the lowest number that is free, or 0 when all are in use. */
    method GetNextControllerNumber() returns (number: nat)
      requires Below(controllerNumbers, MAX_POINTER_ID + 1)
      modifies this`controllerNumbers
      ensures number == 0 <==> |old(controllerNumbers)| == MAX_POINTER_ID + 1
      ensures number == 0 ==> controllerNumbers == old(controllerNumbers)
      ensures number != 0 ==> number - 1 == FirstUnmarked(old(controllerNumbers)) && controllerNumbers == old(controllerNumbers) + {number - 1}
    {
      hide Range, FirstUnmarked, Below;
      BelowSize(controllerNumbers, MAX_POINTER_ID + 1);
      if |controllerNumbers| == MAX_POINTER_ID + 1 {
        return 0;
      }
      var n := FirstUnmarked(controllerNumbers);
      controllerNumbers := controllerNumbers + {n};
      return n + 1;
    }

    /** The part of `openDeviceLocked` that decides about the device lists.  A device that cannot be
        registered is dropped, but it keeps the controller number and the place of the built-in keyboard
        that it was given. */
    method OpenDevice(request: OpenRequest) returns (added: bool)
      requires Valid()
      modifies this`devices, this`openingDevices, this`hub, this`controllers, this`live, this`controllerNumbers,
               this`builtInKeyboardId, this`nextDeviceId
      ensures Valid() && fresh(live - old(live)) && old(live) <= live
      ensures added <==> request.opens && request.recognized && request.registers
      ensures Now() == old(Now()).Opened(request)
      ensures controllers.lost != old(controllers).lost <==>
                request.opens && request.recognized && request.isController && !request.registers && |old(controllerNumbers)| <= MAX_POINTER_ID
      ensures controllerNumbers == if request.opens && request.recognized && request.isController
                                   then Taken(old(controllerNumbers)) else old(controllerNumbers)
      ensures controllers.numberOf ==
                if added then old(controllers).numberOf[old(nextDeviceId) := if request.isController then NextNumber(old(controllerNumbers)) else 0]
                else old(controllers).numberOf
    {
      hide Replay, AllLegal, Hub.Fit, Controllers.Fit, IsList, Stored, Hub.Opened, PathsOf;
      if !request.opens {
        return false;
      }
      NewIdFits(hub, request.recognized && request.eligibleKeyboard);
      StoredIds(devices, live, hub.devices, controllers.numberOf);
      var id := GiveId(request.recognized && request.eligibleKeyboard);
      if !request.recognized {
        return false;
      }
      added := AddNumbered(request, id);
    }

    /** The part of `openDeviceLocked` for a device that has its id and is handled. */
    method AddNumbered(request: OpenRequest, id: int) returns (added: bool)
      requires Valid() && 1 <= id < nextDeviceId && id !in devices && id !in hub.closing && id !in Replay(outbox).seen
      modifies this`devices, this`openingDevices, this`hub, this`controllers, this`live, this`controllerNumbers
      ensures Valid() && fresh(live - old(live)) && old(live) <= live
      ensures added == request.registers
      ensures Now() == if added then World(old(hub).Opened(id), old(Now()).paths[id := request.path]) else old(Now())
      ensures controllers.lost != old(controllers).lost <==>
                request.isController && !request.registers && |old(controllerNumbers)| <= MAX_POINTER_ID
      ensures controllerNumbers == if request.isController then Taken(old(controllerNumbers)) else old(controllerNumbers)
      ensures controllers.numberOf ==
                if added then old(controllers).numberOf[id := if request.isController then NextNumber(old(controllerNumbers)) else 0]
                else old(controllers).numberOf
    {
      hide Replay, Hub.Fit, Controllers.Fit, Controllers.Give, IsList, Stored, Hub.Opened, PathsOf, NextNumber, Taken;
      StoredIds(devices, live, hub.devices, controllers.numberOf);
      var controllerNumber: nat := 0;
      if request.isController {
        controllerNumber := TakeNumber();
      }
      if !request.registers {
        return false;
      }
      GiveLoses(controllers, id, controllerNumber);
      Register(id, request.path, controllerNumber);
      return true;
    }

    /** The device is made and added. */
    method Register(id: int, path: string, controllerNumber: nat)
      requires Valid() && id !in devices && id !in hub.closing
      requires id == VIRTUAL_KEYBOARD_ID || (1 <= id < nextDeviceId && id !in Replay(outbox).seen)
      requires controllerNumber == 0 || controllerNumber - 1 in controllers.lost
      modifies this`devices, this`openingDevices, this`hub, this`controllers, this`live
      ensures Valid() && fresh(live - old(live)) && old(live) <= live
      ensures Now() == World(old(hub).Opened(id), old(Now()).paths[id := path])
      ensures controllers == old(controllers).Give(id, controllerNumber)
    {
      hide Replay, Hub.Fit, Hub.Opened, Controllers.Fit, Controllers.Give, IsList, Stored, PathsOf;
      var device := new Device(id, path, controllerNumber);
      PathsWith(devices, device);
      AddDevice(device);
    }

    method GiveId(eligibleKeyboard: bool) returns (id: int)
      requires Tied()
      modifies this`nextDeviceId, this`builtInKeyboardId, this`hub
      ensures Tied() && id == old(nextDeviceId) && hub == old(hub).WithNewId(eligibleKeyboard)
    {
      id := nextDeviceId;
      nextDeviceId := nextDeviceId + 1;
      if eligibleKeyboard && builtInKeyboardId == NO_BUILT_IN_KEYBOARD {
        builtInKeyboardId := id;
      }
      hub := hub.WithNewId(eligibleKeyboard);
    }

    /** Until the device is added its number counts as lost. */
    method TakeNumber() returns (number: nat)
      requires controllers.Fit() && controllers.used == controllerNumbers
      modifies this`controllerNumbers, this`controllers
      ensures controllers.Fit() && controllers.used == controllerNumbers && controllers.numberOf == old(controllers).numberOf
      ensures number == 0 <==> |old(controllerNumbers)| > MAX_POINTER_ID
      ensures number == 0 ==> controllers == old(controllers)
      ensures number == NextNumber(old(controllerNumbers)) && controllerNumbers == Taken(old(controllerNumbers))
      ensures number != 0 ==> number - 1 !in old(controllers).lost && controllers.lost == old(controllers).lost + {number - 1}
    {
      hide Range, FirstUnmarked;
      BelowSize(controllerNumbers, MAX_POINTER_ID + 1);
      number := GetNextControllerNumber();
      if number != 0 {
        TakeFits(controllers);
        controllers := controllers.Take();
      }
    }

    /** `createVirtualKeyboardLocked`. */
    method CreateVirtualKeyboard()
      requires Valid() && VIRTUAL_KEYBOARD_ID !in devices && VIRTUAL_KEYBOARD_ID !in hub.closing
      modifies this`devices, this`openingDevices, this`hub, this`controllers, this`live
      ensures Valid() && fresh(live - old(live)) && old(live) <= live
      ensures hub == old(hub).Opened(VIRTUAL_KEYBOARD_ID)
      ensures PathsOf(devices) == PathsOf(old(devices))[VIRTUAL_KEYBOARD_ID := VIRTUAL_KEYBOARD_PATH]
    {
      hide Replay, Hub.Fit, Hub.Opened, Controllers.Fit, Controllers.Give, IsList, Stored, PathsOf;
      Register(VIRTUAL_KEYBOARD_ID, VIRTUAL_KEYBOARD_PATH, 0);
    }

    // ----- closing devices -----

    /** The walk along the opening list. */
    method FindOpening(device: Device) returns (found: bool, pred: Device?, ghost k: nat)
      requires IsList(openingDevices, hub.opening, devices, live) && device.id in devices && devices[device.id] == device
      ensures found <==> device.id in hub.opening
      ensures found ==> k < |hub.opening| && hub.opening[k] == device.id
      ensures found ==> pred == if k == 0 then null else NodeAt(hub.opening, k - 1, devices)
    {
      pred, found, k := null, false, 0;
      var entry := openingDevices;
      while entry != null
        invariant k <= |hub.opening| && !found && entry == NodeAt(hub.opening, k, devices)
        invariant pred == if k == 0 then null else NodeAt(hub.opening, k - 1, devices)
        invariant forall i :: 0 <= i < k ==> hub.opening[i] != device.id
        decreases |hub.opening| - k
      {
        assert k < |hub.opening|;
        if entry == device {
          found := true;
          break;
        }
        pred := entry;
        entry := entry.next;
        k := k + 1;
      }
    }

    method UnlinkOpening(device: Device, pred: Device?, ghost k: nat)
      requires hub.Listed() && k < |hub.opening| && hub.opening[k] == device.id && device.id in devices && devices[device.id] == device
      requires pred == if k == 0 then null else NodeAt(hub.opening, k - 1, devices)
      requires Linked()
      modifies this`openingDevices, live`next
      ensures IsList(openingDevices, Without(hub.opening, k), devices - {device.id}, live)
      ensures IsList(closingDevices, hub.closing, closingNodes, live)
    {
      ghost var ids := hub.opening;
      assert pred != null ==> pred.id == ids[k - 1] && ids[k - 1] in ids;
      assert forall i :: 0 <= i < |hub.closing| ==> hub.closing[i] in hub.closing && hub.closing[i] !in ids;
      if pred != null {
        pred.next := device.next;
      } else {
        openingDevices := device.next;
      }
      Unlinked(openingDevices, ids, devices, live, k, devices - {device.id}, live);
    }

    method LinkClosing(device: Device)
      requires Linked() && device in live && device.id !in hub.opening && device.id !in hub.closing
      modifies this`closingDevices, device`next
      ensures IsList(openingDevices, hub.opening, devices - {device.id}, live)
      ensures IsList(closingDevices, [device.id] + hub.closing, closingNodes[device.id := device], live)
    {
      device.next := closingDevices;
      OtherNodes(openingDevices, hub.opening, devices, live, devices - {device.id}, live);
      Prepend(closingDevices, hub.closing, closingNodes, live, device, closingNodes[device.id := device]);
      closingDevices := device;
    }

    /** `closeDeviceLocked`: a device the reader has not been told of goes without a trace, any other one
        waits to be taken back. */
    method CloseDevice(device: Device)
      requires Valid() && device.id in devices && devices[device.id] == device
      modifies this`devices, this`openingDevices, this`closingDevices, this`hub, this`controllers, this`closingNodes,
               this`controllerNumbers, this`builtInKeyboardId, live`next
      ensures Valid()
      ensures hub == old(hub).Closed(device.id) && devices == old(devices) - {device.id}
      ensures Now() == old(Now()).Closed(device.id)
      ensures controllers == old(controllers).Release(device.id)
    {
      hide Hub.Fit, Hub.Closed, Hub.Listed, Hub.IsKnown, Hub.Gone, PlaceOf, NodeAt, Controllers.Fit, IsList, Stored, Controllers.Release, PathsOf;
      StoredIds(devices, live, hub.devices, controllers.numberOf);
      PathsWithout(devices, device.id);
      StoredWithout(devices, live, hub.devices, controllers.numberOf, device.id);
      ClosedFits(hub, device.id);
      ReleaseFits(controllers, device.id);
      ClosedTies(hub, device.id);
      Forget(device);
      Detach(device);
      devices := devices - {device.id};
      hub := hub.Closed(device.id);
      assert hub.Fit() && controllers.Fit();
      assert Tied();
      assert Linked();
    }

    /** The device gives up its controller number and the place of the built-in keyboard. */
    method Forget(device: Device)
      requires controllers.used == controllerNumbers && device.id in controllers.numberOf
      requires device.controllerNumber == controllers.numberOf[device.id] && builtInKeyboardId == hub.builtInKeyboardId
      modifies this`controllerNumbers, this`controllers, this`builtInKeyboardId
      ensures controllers == old(controllers).Release(device.id) && controllers.used == controllerNumbers
      ensures builtInKeyboardId == hub.Gone(device.id).builtInKeyboardId
    {
      ReleaseNumber(device);
      if device.id == builtInKeyboardId {
        builtInKeyboardId := NO_BUILT_IN_KEYBOARD;
      }
    }

    /** Takes the device out of the opening list, or puts it into the closing list if it is not there. */
    method Detach(device: Device)
      requires Linked() && hub.Listed() && device.id in devices && devices[device.id] == device && device in live && device.id !in hub.closing
      requires forall k :: 0 <= k < |hub.opening| && hub.opening[k] == device.id ==> k == PlaceOf(hub.opening, device.id)
      modifies this`openingDevices, this`closingDevices, this`closingNodes, live`next
      ensures IsList(openingDevices, hub.Closed(device.id).opening, devices - {device.id}, live)
      ensures IsList(closingDevices, hub.Closed(device.id).closing, closingNodes, live)
    {
      hide IsList;
      var found, pred, k := FindOpening(device);
      if found {
        UnlinkOpening(device, pred, k);
      } else {
        LinkClosing(device);
        closingNodes := closingNodes[device.id := device];
      }
    }

    /** `releaseControllerNumberLocked`. */
    method ReleaseNumber(device: Device)
      requires controllers.used == controllerNumbers && device.id in controllers.numberOf
      requires device.controllerNumber == controllers.numberOf[device.id]
      modifies this`controllerNumbers, this`controllers
      ensures controllers == old(controllers).Release(device.id) && controllers.used == controllerNumbers
    {
      if device.controllerNumber != 0 {
        controllerNumbers := controllerNumbers - {device.controllerNumber - 1};
      }
      controllers := controllers.Release(device.id);
    }

    /** `closeAllDevicesLocked`. */
    method CloseAllDevices()
      requires Valid()
      modifies this`devices, this`openingDevices, this`closingDevices, this`hub, this`controllers, this`closingNodes,
               this`controllerNumbers, this`builtInKeyboardId, live`next
      ensures Valid() && hub == old(hub).AllClosed()
    {
      hide Replay, AllLegal, Hub.Fit, Hub.Closed, Hub.Listed, Controllers.Fit, IsList, Stored, Controllers.Release;
      StoredIds(devices, live, hub.devices, controllers.numberOf);
      while devices != map[]
        invariant Valid() && hub.AllClosed() == old(hub).AllClosed() && hub.devices == devices.Keys
        invariant forall id :: id in devices ==> devices[id].id == id
        decreases |devices.Keys|
      {
        var id := Greatest(devices.Keys);
        CloseDevice(devices[id]);
        StoredIds(devices, live, hub.devices, controllers.numberOf);
      }
    }

    /** `closeDeviceByPathLocked`: the first device with that path. */
    method CloseDeviceByPath(path: string)
      requires Valid()
      modifies this`devices, this`openingDevices, this`closingDevices, this`hub, this`controllers, this`closingNodes,
               this`controllerNumbers, this`builtInKeyboardId, live`next
      ensures Valid()
      ensures Now() == old(Now()).Changed(Deleted(path))
    {
      hide Replay, AllLegal, Hub.Fit, Hub.Closed, Hub.Listed, Controllers.Fit, IsList, Stored, Controllers.Release;
      StoredIds(devices, live, hub.devices, controllers.numberOf);
      var there := set id | id in devices && devices[id].path == path;
      assert there == Now().At(path);
      if there != {} {
        CloseDevice(devices[Least(there)]);
      }
    }

    // ----- reporting -----

    /** The first loop of `getEvents`.  A closing device is no longer the built-in keyboard, so it is always
        taken back under its own id. */
    method ReportClosed()
      requires Valid()
      modifies this`closingDevices, this`outbox, this`needToSendFinishedDeviceScan, this`hub
      ensures Valid() && hub == old(hub).AllTakenBack()
    {
      hide Replay, AllLegal, Hub.Fit, Controllers.Fit, IsList, Stored;
      while closingDevices != null
        invariant Valid() && hub.AllTakenBack() == old(hub).AllTakenBack()
        decreases |hub.closing|
      {
        ReportFirstClosed();
      }
      StartOfList(closingDevices, hub.closing, closingNodes, live);
      assert hub.AllTakenBack() == hub;
    }

    method ReportFirstClosed()
      requires Valid() && closingDevices != null
      modifies this`closingDevices, this`outbox, this`needToSendFinishedDeviceScan, this`hub
      ensures Valid() && old(hub).closing != [] && hub == old(hub).TakenBack()
      ensures hub.AllTakenBack() == old(hub).AllTakenBack()
    {
      hide Replay, AllLegal, Hub.Fit, Controllers.Fit, IsList, Stored;
      StartOfList(closingDevices, hub.closing, closingNodes, live);
      TakenBackFits(hub);
      AllTakenBackStep(hub);
      Tail(closingDevices, hub.closing, closingNodes, live);
      var device := closingDevices;
      closingDevices := device.next;
      outbox := outbox + [Removed(if device.id == builtInKeyboardId then BUILT_IN_KEYBOARD_ID else device.id, device.id)];
      needToSendFinishedDeviceScan := true;
      hub := hub.TakenBack();
    }

    /** The second loop of `getEvents`. */
    method ReportOpened()
      requires Valid()
      modifies this`openingDevices, this`outbox, this`needToSendFinishedDeviceScan, this`hub
      ensures Valid() && hub == old(hub).AllAnnounced()
    {
      hide Replay, AllLegal, Hub.Fit, Controllers.Fit, IsList, Stored;
      while openingDevices != null
        invariant Valid() && hub.AllAnnounced() == old(hub).AllAnnounced()
        decreases |hub.opening|
      {
        ReportFirstOpened();
      }
      StartOfList(openingDevices, hub.opening, devices, live);
      assert hub.AllAnnounced() == hub;
    }

    method ReportFirstOpened()
      requires Valid() && openingDevices != null
      modifies this`openingDevices, this`outbox, this`needToSendFinishedDeviceScan, this`hub
      ensures Valid() && old(hub).opening != [] && hub == old(hub).Announced()
      ensures hub.AllAnnounced() == old(hub).AllAnnounced()
    {
      hide Replay, AllLegal, Hub.Fit, Controllers.Fit, IsList, Stored;
      StartOfList(openingDevices, hub.opening, devices, live);
      AnnouncedFits(hub);
      AllAnnouncedStep(hub);
      Tail(openingDevices, hub.opening, devices, live);
      var device := openingDevices;
      openingDevices := device.next;
      outbox := outbox + [Added(if device.id == builtInKeyboardId then BUILT_IN_KEYBOARD_ID else device.id, device.id)];
      needToSendFinishedDeviceScan := true;
      hub := hub.Announced();
    }

    method ReportScanEnd()
      requires Valid()
      modifies this`outbox, this`needToSendFinishedDeviceScan, this`hub
      ensures Valid() && hub == if old(hub).scanDue then old(hub).ScanEnded() else old(hub)
    {
      hide Replay, AllLegal, Hub.Fit, Controllers.Fit, IsList, Stored;
      if needToSendFinishedDeviceScan {
        ScanEndedFits(hub);
        needToSendFinishedDeviceScan := false;
        outbox := outbox + [FinishedScan];
        hub := hub.ScanEnded();
      }
    }

    // ----- changes and input -----

    /** `scanDevicesLocked`: opens what is there, and the virtual keyboard if it is not there yet. */
    method ScanDevices(requests: seq<OpenRequest>)
      requires Valid() && hub.closing == []
      modifies this`devices, this`openingDevices, this`hub, this`controllers, this`live, this`controllerNumbers,
               this`builtInKeyboardId, this`nextDeviceId
      ensures Valid() && fresh(live - old(live)) && old(live) <= live
      ensures hub.closing == [] && hub.outbox == old(hub).outbox && hub.scanDue == old(hub).scanDue
      ensures Now() == old(Now()).Scanned(requests)
    {
      hide Replay, AllLegal, Hub.Fit, Controllers.Fit, IsList, Stored;
      for i := 0 to |requests|
        invariant Valid() && fresh(live - old(live)) && old(live) <= live
        invariant hub.closing == [] && hub.outbox == old(hub).outbox && hub.scanDue == old(hub).scanDue
        invariant Now() == old(Now()).AllOpened(requests[..i])
      {
        assert requests[..i + 1][..i] == requests[..i];
        var added := OpenDevice(requests[i]);
      }
      assert requests[..|requests|] == requests;
      StoredIds(devices, live, hub.devices, controllers.numberOf);
      if VIRTUAL_KEYBOARD_ID !in devices {
        CreateVirtualKeyboard();
      }
    }

    /** `readNotifyLocked`. */
    method ReadNotify(changes: seq<Change>)
      requires Valid()
      modifies this`devices, this`openingDevices, this`closingDevices, this`hub, this`controllers, this`closingNodes, this`live,
               this`controllerNumbers, this`builtInKeyboardId, this`nextDeviceId, live`next
      ensures Valid() && fresh(live - old(live)) && old(live) <= live
      ensures hub.outbox == old(hub).outbox && hub.scanDue == old(hub).scanDue
      ensures Now() == old(Now()).AllChanged(changes)
    {
      hide Replay, AllLegal, Hub.Fit, Controllers.Fit, IsList, Stored;
      for i := 0 to |changes|
        invariant Valid() && fresh(live - old(live)) && old(live) <= live
        invariant hub.outbox == old(hub).outbox && hub.scanDue == old(hub).scanDue
        invariant Now() == old(Now()).AllChanged(changes[..i])
      {
        assert changes[..i + 1][..i] == changes[..i];
        match changes[i] {
          case Created(request) => var added := OpenDevice(request);
          case Deleted(path) => CloseDeviceByPath(path);
        }
      }
      assert changes[..|changes|] == changes;
    }

    /** Passes on what was read from a device. */
    method PassInput(id: int, codes: seq<int>)
      requires Valid() && id in devices && hub.opening == [] && !Replay(outbox).changing
      modifies this`outbox, this`hub
      ensures Valid() && Replay(outbox) == old(Replay(outbox))
      ensures hub == old(hub).(outbox := outbox)
      ensures outbox == old(outbox) + InputEvents(old(hub).Alias(id), id, codes)
    {
      hide Replay, AllLegal, Hub.Fit, Controllers.Fit, IsList, Stored;
      StoredIds(devices, live, hub.devices, controllers.numberOf);
      var deviceId := if id == builtInKeyboardId then BUILT_IN_KEYBOARD_ID else id;
      for i := 0 to |codes|
        invariant Valid() && Replay(outbox) == old(Replay(outbox))
        invariant hub == old(hub).(outbox := outbox)
        invariant outbox == old(outbox) + InputEvents(deviceId, id, codes[..i])
      {
        InputFits(hub, id, codes[i]);
        outbox := outbox + [Input(deviceId, id, codes[i])];
        hub := hub.WithInput(id, codes[i]);
        assert InputEvents(deviceId, id, codes[..i + 1]) == InputEvents(deviceId, id, codes[..i]) + [Input(deviceId, id, codes[i])];
      }
      assert codes[..|codes|] == codes;
    }

    method ProcessItem(item: Item) returns (changed: bool, woken: bool)
      requires Valid() && hub.opening == [] && !Replay(outbox).changing && !hub.scanDue
      modifies this`devices, this`openingDevices, this`closingDevices, this`hub, this`controllers, this`closingNodes,
               this`controllerNumbers, this`builtInKeyboardId, this`outbox, this`pendingINotify, this`pendingChanges, live`next
      ensures Valid() && hub.opening == [] && !Replay(outbox).changing && !hub.scanDue && old(outbox) <= outbox
      ensures Now() == old(Now()).Polled(item)
      ensures hub.closing != [] <==> old(hub.closing) != [] || changed
      ensures woken <==> item == Woken
      ensures pendingINotify == (old(pendingINotify) || item.Notified?)
      ensures pendingChanges == if item.Notified? then item.changes else old(pendingChanges)
    {
      hide Replay, AllLegal, Hub.Fit, Hub.Closed, Controllers.Fit, IsList, Stored;
      changed, woken := false, false;
      StoredIds(devices, live, hub.devices, controllers.numberOf);
      match item {
        case Notified(changes) => pendingINotify, pendingChanges := true, changes;
        case Woken => woken := true;
        case Readable(id, codes) =>
          if id in devices {
            PassInput(id, codes);
          }
        case Vanished(id) =>
          if id in devices {
            changed := true;
            CloseAnnounced(id);
          }
        case NothingToRead(_) =>
      }
    }

    /** The items of the last poll, in order.  An item of a device that is gone by then is ignored. */
    method ProcessPending() returns (deviceChanged: bool, awoken: bool)
      requires Valid() && hub.opening == [] && hub.closing == [] && !Replay(outbox).changing && !hub.scanDue
      modifies this`devices, this`openingDevices, this`closingDevices, this`hub, this`controllers, this`closingNodes,
               this`controllerNumbers, this`builtInKeyboardId, this`outbox, this`pendingItems, this`pendingINotify, this`pendingChanges, live`next
      ensures Valid() && pendingItems == [] && hub.opening == [] && !Replay(outbox).changing && !hub.scanDue && old(outbox) <= outbox
      ensures Now() == old(Now()).AllPolled(old(pendingItems))
      ensures deviceChanged <==> hub.closing != []
      ensures awoken <==> Woken in old(pendingItems)
      ensures pendingINotify == (old(pendingINotify) || Notice(old(pendingItems)).Some?)
      ensures pendingChanges == match Notice(old(pendingItems)) case None => old(pendingChanges) case Some(changes) => changes
      ensures deviceChanged || Notice(old(pendingItems)).Some? ==> old(pendingItems) != []
    {
      hide Replay, Valid, PathsOf, Notice, World.AllPolled, World.Polled;
      deviceChanged, awoken := false, false;
      NoItems(Now());
      ghost var items, n := pendingItems, 0;
      while pendingItems != []
        invariant Valid() && hub.opening == [] && !Replay(outbox).changing && !hub.scanDue && old(outbox) <= outbox
        invariant n <= |items| && pendingItems == items[n..] && items == old(pendingItems)
        invariant Now() == old(Now()).AllPolled(items[..n])
        invariant deviceChanged <==> hub.closing != []
        invariant awoken <==> Woken in items[..n]
        invariant pendingINotify == (old(pendingINotify) || Notice(items[..n]).Some?)
        invariant pendingChanges == match Notice(items[..n]) case None => old(pendingChanges) case Some(changes) => changes
        decreases |pendingItems|
      {
        OneMoreItem(old(Now()), items, n);
        n := n + 1;
        var item := pendingItems[0];
        pendingItems := pendingItems[1..];
        var changed, woken := ProcessItem(item);
        deviceChanged, awoken := deviceChanged || changed, awoken || woken;
      }
      assert items[..n] == items;
    }

    method CloseAnnounced(id: int)
      requires Valid() && id in devices && hub.opening == []
      modifies this`devices, this`openingDevices, this`closingDevices, this`hub, this`controllers, this`closingNodes,
               this`controllerNumbers, this`builtInKeyboardId, live`next
      ensures Valid() && hub == old(hub).Gone(id).(closing := [id] + old(hub).closing)
      ensures Now() == old(Now()).Closed(id)
    {
      hide Replay, AllLegal, Hub.Fit, Controllers.Fit, IsList, Stored;
      StoredIds(devices, live, hub.devices, controllers.numberOf);
      CloseDevice(devices[id]);
    }

    // ----- getEvents -----

    method ScanIfNeeded(found: seq<OpenRequest>)
      requires Valid() && hub.closing == []
      modifies this`devices, this`openingDevices, this`hub, this`controllers, this`live, this`controllerNumbers,
               this`builtInKeyboardId, this`nextDeviceId, this`needToScanDevices, this`needToSendFinishedDeviceScan
      ensures Valid() && fresh(live - old(live)) && old(live) <= live && !needToScanDevices
      ensures hub.closing == [] && hub.outbox == old(hub).outbox && hub.scanDue == (old(hub).scanDue || old(needToScanDevices))
      ensures Now() == if old(needToScanDevices) then old(Now()).Scanned(found).Due() else old(Now())
    {
      hide Replay, AllLegal, Hub.Fit, Controllers.Fit, IsList, Stored;
      if needToScanDevices {
        needToScanDevices := false;
        ScanDevices(found);
        ScanDueFits(hub);
        needToSendFinishedDeviceScan := true;
        hub := hub.(scanDue := true);
      }
    }

    /** What each turn of `getEvents` begins with: changes are reported, and after them the end of the scan. */
    method AnnounceChanges(found: seq<OpenRequest>)
      requires Valid()
      modifies this`devices, this`openingDevices, this`closingDevices, this`hub, this`controllers, this`live, this`controllerNumbers,
               this`builtInKeyboardId, this`nextDeviceId, this`outbox, this`needToScanDevices, this`needToSendFinishedDeviceScan
      ensures Valid() && fresh(live - old(live)) && old(live) <= live && old(outbox) <= outbox && !needToScanDevices
      ensures hub.opening == [] && hub.closing == [] && !hub.scanDue && !Replay(outbox).changing
      ensures Now() == old(Now()).Announced(found, old(needToScanDevices))
    {
      hide Replay, AllLegal, Hub.Fit, Controllers.Fit, IsList, Stored;
      ReportClosed();
      ScanIfNeeded(found);
      ReportOpened();
      ReportScanEnd();
      KnowsTheDevices(hub);
    }

    lemma ReaderKnows()
      requires Valid() && hub.opening == [] && hub.closing == [] && !hub.scanDue
      ensures Replay(outbox).known == devices.Keys && !Replay(outbox).changing
    {
      hide Replay, AllLegal, Hub.Fit, Controllers.Fit, IsList, Stored;
      KnowsTheDevices(hub);
      StoredIds(devices, live, hub.devices, controllers.numberOf);
    }

    /** One turn without its wait.  If it changed no devices the reader knows exactly the connected ones. */
    method Turn(found: seq<OpenRequest>) returns (deviceChanged: bool, awoken: bool)
      requires Valid() && !pendingINotify
      modifies this, live`next
      ensures Valid() && fresh(live - old(live)) && old(live) <= live && old(outbox) <= outbox
      ensures pendingItems == [] && !pendingINotify && !needToScanDevices && needToReopenDevices == old(needToReopenDevices)
      ensures deviceChanged ==> old(pendingItems) != []
      ensures Now() == old(Now()).Turned(found, old(needToScanDevices), old(pendingItems))
      ensures deviceChanged <==> Notice(old(pendingItems)).Some? || hub.closing != []
      ensures awoken <==> Woken in old(pendingItems)
      ensures !deviceChanged ==> Replay(outbox).known == devices.Keys && !Replay(outbox).changing
    {
      hide Replay, Valid, PathsOf, World.Announced, World.AllPolled, World.AllChanged, Notice;
      AnnounceChanges(found);
      deviceChanged, awoken := ProcessPending();
      if pendingINotify {
        pendingINotify := false;
        ReadNotify(pendingChanges);
        deviceChanged := true;
      }
      if !deviceChanged {
        ReaderKnows();
      }
    }

    /** The next of the turns of one call. */
    method NextTurn(found: seq<OpenRequest>, woken: bool, ghost start: World, ghost scans: bool, ghost turns: seq<seq<Item>>,
                    ghost first: seq<Item>, ghost polls: seq<Poll>, ghost used: nat)
      returns (deviceChanged: bool, awoken: bool, ghost more: seq<seq<Item>>)
      requires Valid() && !pendingINotify
      requires Now() == start.AllTurned(found, scans, turns) && needToScanDevices == (scans && turns == [])
      requires WorkedOff(turns, pendingItems, first, polls, used) && (woken <==> Woken in Joined(turns))
      modifies this, live`next
      ensures Valid() && fresh(live - old(live)) && old(live) <= live && old(outbox) <= outbox
      ensures Now() == start.AllTurned(found, scans, more) && more == turns + [old(pendingItems)] && !needToScanDevices
      ensures WorkedOff(more, [], first, polls, used) && (awoken <==> Woken in Joined(more))
      ensures pendingItems == [] && !pendingINotify && needToReopenDevices == old(needToReopenDevices)
      ensures deviceChanged ==> old(pendingItems) != []
      ensures !deviceChanged ==> Replay(outbox).known == devices.Keys && !Replay(outbox).changing
    {
      hide Replay, Valid, PathsOf, World.Turned, World.AllTurned, Joined, Notice, WorkedOff;
      OneMoreTurn(start, found, scans, turns, pendingItems);
      more := turns + [pendingItems];
      TurnTaken(turns, pendingItems, more, first, polls, used);
      deviceChanged, awoken := Turn(found);
      awoken := woken || awoken;
    }

    /** `getEvents`, as long as the caller's buffer does not fill.  `polls` are the results of the waits;
        with no more of them the wait times out.  The items of the polls are worked off in order and none of
        them is lost.  Unless the devices are to be reopened, the reader knows exactly the connected devices
        afterwards, and what has become of each device follows from the polls alone; the reader gets nothing only
        if the wait timed out or somebody woke it. */
    method GetEvents(found: seq<OpenRequest>, polls: seq<Poll>)
      returns (events: seq<Event>, reopened: bool, ghost turns: seq<seq<Item>>, used: nat)
      requires Valid() && !pendingINotify
      modifies this, live`next
      ensures Valid() && fresh(live - old(live)) && !pendingINotify
      ensures outbox == old(outbox) + events
      ensures WorkedOff(turns, pendingItems, old(pendingItems), polls, used) && used <= |polls|
      ensures if reopened then devices == map[] && needToScanDevices && !needToReopenDevices
              else pendingItems == [] && Replay(outbox).known == devices.Keys && !Replay(outbox).changing
      ensures reopened ==> hub == old(Now()).AllTurned(found, old(needToScanDevices), turns).hub.AllClosed()
      ensures !reopened ==> Now() == old(Now()).AllTurned(found, old(needToScanDevices), turns)
      ensures !reopened ==>
                var batches, scans := BatchesOf(old(pendingItems), polls[..used]), old(needToScanDevices);
                && CreatedStay(old(nextDeviceId) + (if scans then Opens(found) else 0), batches, PathsOf(devices), events)
                && (scans ==> FoundStay(old(nextDeviceId), found, batches, PathsOf(devices), events)
                              && VirtualIsThere(old(PathsOf(devices)), batches, PathsOf(devices)) && FinishedScan in events)
                && OthersStay(old(PathsOf(devices)), batches, PathsOf(devices), events)
                && EndedGo(old(PathsOf(devices)), old(Replay(outbox)).known, batches, PathsOf(devices), events)
                && DeletedPathsGo(old(PathsOf(devices)), found, scans, batches, PathsOf(devices))
      ensures !reopened && events == [] ==> used == |polls| || polls[used].timedOut || Woken in Joined(turns)
    {
      hide Replay, Valid, Hub.AllClosed, PathsOf, World.AllTurned, WorkedOff, Joined, Fits,
           CreatedStay, FoundStay, VirtualIsThere, OthersStay, EndedGo, DeletedPathsGo, BatchesOf;
      StartsSane();
      ghost var w := Now();
      var start := |outbox|;
      reopened, turns, used := TakeTurns(found, polls);
      events := outbox[start..];
      if !reopened {
        BatchesAre(old(pendingItems), polls[..used]);
        CallLives(w, found, old(needToScanDevices), turns, BatchesOf(old(pendingItems), polls[..used]), events);
      }
    }

    /** The loop of `getEvents`. */
    method TakeTurns(found: seq<OpenRequest>, polls: seq<Poll>)
      returns (reopened: bool, ghost turns: seq<seq<Item>>, used: nat)
      requires Valid() && !pendingINotify
      modifies this, live`next
      ensures Valid() && fresh(live - old(live)) && !pendingINotify && old(outbox) <= outbox
      ensures WorkedOff(turns, pendingItems, old(pendingItems), polls, used) && used <= |polls|
      ensures if reopened then devices == map[] && needToScanDevices && !needToReopenDevices
              else pendingItems == [] && Replay(outbox).known == devices.Keys && !Replay(outbox).changing
      ensures reopened ==> hub == old(Now()).AllTurned(found, old(needToScanDevices), turns).hub.AllClosed()
      ensures !reopened ==> Now() == old(Now()).AllTurned(found, old(needToScanDevices), turns)
      ensures !reopened ==> Fits(turns, BatchesOf(old(pendingItems), polls[..used]))
      ensures !reopened && outbox == old(outbox) ==> used == |polls| || polls[used].timedOut || Woken in Joined(turns)
    {
      hide Replay, Valid, Hub.AllClosed, PathsOf, World.AllTurned, WorkedOff, Joined, Fits, InTurns;
      NoTurns(old(Now()), found, old(needToScanDevices));
      NothingWorkedOff(pendingItems, polls);
      NoneInTurns(pendingItems, polls);
      var awoken, start := false, |outbox|;
      reopened, turns, used := false, [], 0;
      ghost var waiting := true;
      while true
        invariant Valid() && fresh(live - old(live)) && old(live) <= live && !pendingINotify
        invariant used <= |polls| && start == |old(outbox)| && old(outbox) <= outbox
        invariant WorkedOff(turns, pendingItems, old(pendingItems), polls, used)
        invariant Now() == old(Now()).AllTurned(found, old(needToScanDevices), turns)
        invariant needToScanDevices == (old(needToScanDevices) && turns == [])
        invariant InTurns(turns, pendingItems, waiting, old(pendingItems), polls, used)
        invariant awoken <==> Woken in Joined(turns)
        decreases |polls| - used, if pendingItems != [] then 1 else 0
      {
        if needToReopenDevices {
          needToReopenDevices := false;
          Reopen();
          reopened := true;
          break;
        }
        TurnDone(turns, pendingItems, waiting, old(pendingItems), polls, used);
        waiting := false;
        var deviceChanged;
        deviceChanged, awoken, turns :=
          NextTurn(found, awoken, old(Now()), old(needToScanDevices), turns, old(pendingItems), polls, used);
        if deviceChanged {
          continue;
        }
        if |outbox| > start || awoken || used == |polls| {
          break;
        }
        needToReopenDevices := needToReopenDevices || polls[used].reopen;
        if polls[used].timedOut {
          break;
        }
        pendingItems := polls[used].items;
        PollTaken(turns, old(pendingItems), polls, used);
        PollDone(turns, old(pendingItems), polls, used);
        used, waiting := used + 1, true;
      }
      if !reopened {
        AllInTurns(turns, old(pendingItems), polls, used);
      }
    }

    lemma StartsSane()
      requires Valid()
      ensures Sane(Now()) && hub.Fit() && hub.nextDeviceId == nextDeviceId && hub.outbox == outbox
      ensures Now().paths == PathsOf(devices) && PathsOf(devices).Keys == devices.Keys && Now().hub == hub
    {
      hide Replay, AllLegal, Controllers.Fit, IsList;
    }

    /** What the call has done with each device. */
    lemma CallLives(w: World, found: seq<OpenRequest>, scans: bool, turns: seq<seq<Item>>, batches: seq<seq<Item>>, events: seq<Event>)
      requires Valid() && Now() == w.AllTurned(found, scans, turns) && Sane(w) && w.hub.Fit() && Fits(turns, batches) && batches != []
      requires outbox == w.hub.outbox + events && Replay(outbox).known == devices.Keys
      ensures CreatedStay(w.hub.nextDeviceId + (if scans then Opens(found) else 0), batches, PathsOf(devices), events)
      ensures scans ==> FoundStay(w.hub.nextDeviceId, found, batches, PathsOf(devices), events)
                        && VirtualIsThere(w.paths, batches, PathsOf(devices)) && FinishedScan in events
      ensures OthersStay(w.paths, batches, PathsOf(devices), events)
      ensures EndedGo(w.paths, Replay(w.hub.outbox).known, batches, PathsOf(devices), events)
      ensures DeletedPathsGo(w.paths, found, scans, batches, PathsOf(devices))
    {
      hide Valid, Replay, PathsOf, World.AllTurned, Hub.Fit, Fits, CreatedStay, FoundStay, VirtualIsThere, OthersStay, EndedGo, DeletedPathsGo;
      StartsSane();
      CallCreates(w, found, scans, turns, batches, events);
      if scans {
        CallFinds(w, found, turns, batches, events);
      }
      CallKeeps(w, found, scans, turns, batches, events);
      CallEnds(w, found, scans, turns, batches, events);
      CallDeletes(w, found, scans, turns, batches, events);
    }

    method Reopen()
      requires Valid()
      modifies this`devices, this`openingDevices, this`closingDevices, this`hub, this`controllers, this`closingNodes,
               this`controllerNumbers, this`builtInKeyboardId, this`needToScanDevices, live`next
      ensures Valid() && devices == map[] && needToScanDevices && hub == old(hub).AllClosed() && hub.outbox == old(hub).outbox
    {
      hide Replay, AllLegal, Hub.Fit, Controllers.Fit, IsList, Stored;
      AllClosedFits(hub);
      CloseAllDevices();
      StoredIds(devices, live, hub.devices, controllers.numberOf);
      needToScanDevices := true;
    }

    /** The destructor's first part: everything is closed, and the closing list is emptied. */
    method Destroy()
      requires Valid()
      modifies this`devices, this`openingDevices, this`closingDevices, this`hub, this`controllers, this`closingNodes,
               this`controllerNumbers, this`builtInKeyboardId, live`next
      ensures devices == map[] && openingDevices == null && closingDevices == null
    {
      hide Replay, AllLegal, Hub.Fit, Controllers.Fit, IsList, Stored;
      AllClosedFits(hub);
      CloseAllDevices();
      StoredIds(devices, live, hub.devices, controllers.numberOf);
      StartOfList(openingDevices, hub.opening, devices, live);
      ghost var rest := hub.closing;
      while closingDevices != null
        invariant IsList(closingDevices, rest, closingNodes, live) && devices == map[] && openingDevices == null
        decreases |rest|
      {
        StartOfList(closingDevices, rest, closingNodes, live);
        Tail(closingDevices, rest, closingNodes, live);
        var device := closingDevices;
        closingDevices := device.next;
        rest := rest[1..];
      }
    }
  }

  /** A controller that cannot be registered takes a number along: the next one, the only controller there is,
      gets number 2. */
  method LoseANumber(path: string) returns (h: EventHub)
    ensures h.Valid() && h.hub.devices == {2} && h.controllers.numberOf == map[2 := 2] && h.controllers.lost != {}
  {
    hide EventHub.Valid, PathsOf;
    h := new EventHub();
    var added := h.OpenDevice(OpenRequest(path, true, true, false, true, false));
    h.NextIdIs();
    assert IsFirstUnmarked({}, FirstUnmarked({})) && FirstUnmarked({}) == 0;
    assert IsFirstUnmarked({0}, FirstUnmarked({0})) && FirstUnmarked({0}) == 1;
    added := h.OpenDevice(OpenRequest(path, true, true, false, true, true));
  }
}
