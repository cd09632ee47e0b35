/** What becomes of a single device in a call of the reader, by the polls alone. */
module DeviceLives {
  import opened DeviceChanges
  import opened DeviceEvents
  import opened DeviceLists
  import opened Options

  // ----- polls in plain terms -----

  /** The last notice among the items of a poll tells of these changes. */
  ghost predicate Tells(items: seq<Item>, changes: seq<Change>) {
    exists i :: 0 <= i < |items| && items[i] == Notified(changes) && forall k :: i < k < |items| ==> !items[k].Notified?
  }

  lemma TellsNotice(items: seq<Item>, changes: seq<Change>)
    ensures Tells(items, changes) <==> Notice(items) == Some(changes)
    decreases |items|
  {
    if items != [] {
      var n := |items| - 1;
      TellsNotice(items[..n], changes);
      if Tells(items, changes) {
        var i :| 0 <= i < |items| && items[i] == Notified(changes) && forall k :: i < k < |items| ==> !items[k].Notified?;
        if i < n {
          assert items[..n][i] == Notified(changes) && !items[n].Notified?;
          assert Tells(items[..n], changes);
        }
      } else if Notice(items) == Some(changes) {
        if items[n].Notified? {
          assert false;
        } else {
          var i :| 0 <= i < n && items[..n][i] == Notified(changes) && forall k :: i < k < n ==> !items[..n][k].Notified?;
          assert items[i] == Notified(changes);
          assert forall k :: i < k < |items| ==> if k < n then items[k] == items[..n][k] else k == n;
          assert false;
        }
      }
    }
  }

  /** An item by which the device goes. */
  predicate Ends(item: Item, d: int, path: string) {
    item == Vanished(d) || (item.Notified? && Deleted(path) in item.changes)
  }

  /** Nothing in these items makes the device go. */
  ghost predicate Spares(items: seq<Item>, d: int, path: string) {
    forall item :: item in items ==> !Ends(item, d, path)
  }

  ghost predicate AllSpare(batches: seq<seq<Item>>, d: int, path: string) {
    forall b :: 0 <= b < |batches| ==> Spares(batches[b], d, path)
  }

  /** How many of the files open, and so use up an id. */
  function Opens(requests: seq<OpenRequest>): nat {
    if requests == [] then 0
    else Opens(requests[..|requests| - 1]) + if requests[|requests| - 1].opens then 1 else 0
  }

  function OpensIn(changes: seq<Change>): nat {
    if changes == [] then 0
    else
      var last := changes[|changes| - 1];
      OpensIn(changes[..|changes| - 1]) + if last.Created? && last.request.opens then 1 else 0
  }

  ghost function OpensOf(items: seq<Item>): nat {
    match Notice(items)
    case None => 0
    case Some(changes) => OpensIn(changes)
  }

  ghost function OpensInAll(batches: seq<seq<Item>>): nat {
    if batches == [] then 0 else OpensInAll(batches[..|batches| - 1]) + OpensOf(batches[|batches| - 1])
  }

  // ----- one step -----

  ghost predicate Sane(w: World) {
    w.paths.Keys == w.hub.devices && 1 <= w.hub.nextDeviceId && forall id :: id in w.paths ==> id < w.hub.nextDeviceId
  }

  /** Devices may have gone, and those that have come have new ids; only the virtual keyboard keeps its own. */
  ghost predicate Later(w: World, w': World) {
    && Sane(w) && Sane(w') && w.hub.nextDeviceId <= w'.hub.nextDeviceId
    && forall id :: id in w'.paths ==>
         || (id in w.paths && w'.paths[id] == w.paths[id])
         || id >= w.hub.nextDeviceId
         || (id == VIRTUAL_KEYBOARD_ID && w'.paths[id] == VIRTUAL_KEYBOARD_PATH)
  }

  ghost predicate Has(w: World, d: int, path: string) {
    d in w.paths && w.paths[d] == path
  }

  lemma LaterOn(w: World, w': World, w'': World)
    requires Later(w, w') && Later(w', w'')
    ensures Later(w, w'')
  {
  }

  lemma OpenedLater(w: World, request: OpenRequest)
    requires Sane(w)
    ensures var w' := w.Opened(request);
            && Later(w, w') && w'.hub.nextDeviceId == w.hub.nextDeviceId + (if request.opens then 1 else 0)
            && (request.opens && request.recognized && request.registers ==> Has(w', w.hub.nextDeviceId, request.path))
            && forall d, path :: Has(w, d, path) ==> Has(w', d, path)
  {
  }

  lemma ClosedLater(w: World, id: int)
    requires Sane(w) && id in w.paths
    ensures var w' := w.Closed(id);
            && Later(w, w') && w'.hub.nextDeviceId == w.hub.nextDeviceId && id !in w'.paths
            && forall d, path :: Has(w, d, path) && d != id ==> Has(w', d, path)
  {
  }

  lemma ChangedLater(w: World, change: Change)
    requires Sane(w)
    ensures var w' := w.Changed(change);
            && Later(w, w')
            && w'.hub.nextDeviceId == w.hub.nextDeviceId + (if change.Created? && change.request.opens then 1 else 0)
            && forall d, path :: Has(w, d, path) && change != Deleted(path) ==> Has(w', d, path)
  {
    hide World.Opened, World.Closed;
    match change
    case Created(request) => OpenedLater(w, request);
    case Deleted(path) =>
      if w.At(path) != {} {
        ClosedLater(w, Least(w.At(path)));
      }
  }

  lemma PolledLater(w: World, item: Item)
    requires Sane(w)
    ensures var w' := w.Polled(item);
            && Later(w, w') && w'.hub.nextDeviceId == w.hub.nextDeviceId
            && (item.Vanished? ==> item.device !in w'.paths)
            && forall d, path :: Has(w, d, path) && item != Vanished(d) ==> Has(w', d, path)
  {
    hide World.Closed;
    if item.Vanished? && item.device in w.paths {
      ClosedLater(w, item.device);
    }
  }

  // ----- several steps -----

  lemma {:induction false} AllOpenedLater(w: World, requests: seq<OpenRequest>)
    requires Sane(w)
    ensures Later(w, w.AllOpened(requests)) && w.AllOpened(requests).hub.nextDeviceId == w.hub.nextDeviceId + Opens(requests)
    ensures forall d, path :: Has(w, d, path) ==> Has(w.AllOpened(requests), d, path)
    decreases |requests|
  {
    hide World.Opened;
    if requests != [] {
      var n := |requests| - 1;
      AllOpenedLater(w, requests[..n]);
      OpenedLater(w.AllOpened(requests[..n]), requests[n]);
    }
  }

  lemma {:induction false} FoundIsThere(w: World, requests: seq<OpenRequest>, j: nat)
    requires Sane(w) && j < |requests| && requests[j].opens && requests[j].recognized && requests[j].registers
    ensures Has(w.AllOpened(requests), w.hub.nextDeviceId + Opens(requests[..j]), requests[j].path)
    decreases |requests|
  {
    hide World.Opened;
    var n := |requests| - 1;
    AllOpenedLater(w, requests[..n]);
    OpenedLater(w.AllOpened(requests[..n]), requests[n]);
    if j < n {
      FoundIsThere(w, requests[..n], j);
      assert requests[..n][..j] == requests[..j];
    }
  }

  lemma {:induction false} AllChangedLater(w: World, changes: seq<Change>)
    requires Sane(w)
    ensures Later(w, w.AllChanged(changes)) && w.AllChanged(changes).hub.nextDeviceId == w.hub.nextDeviceId + OpensIn(changes)
    ensures forall d, path :: Has(w, d, path) && Deleted(path) !in changes ==> Has(w.AllChanged(changes), d, path)
    decreases |changes|
  {
    hide World.Changed;
    if changes != [] {
      var n := |changes| - 1;
      AllChangedLater(w, changes[..n]);
      ChangedLater(w.AllChanged(changes[..n]), changes[n]);
      LaterOn(w, w.AllChanged(changes[..n]), w.AllChanged(changes));
    }
  }

  /** A device file that was created and not deleted after that has its device, under the next free id. */
  lemma {:induction false} CreatedIsThere(w: World, changes: seq<Change>, j: nat)
    requires Sane(w) && j < |changes| && changes[j].Created?
    requires changes[j].request.opens && changes[j].request.recognized && changes[j].request.registers
    requires Deleted(changes[j].request.path) !in changes[j + 1..]
    ensures Has(w.AllChanged(changes), w.hub.nextDeviceId + OpensIn(changes[..j]), changes[j].request.path)
    decreases |changes|
  {
    hide World.Changed;
    var n := |changes| - 1;
    AllChangedLater(w, changes[..n]);
    ChangedLater(w.AllChanged(changes[..n]), changes[n]);
    if j < n {
      assert changes[..n][j + 1..] == changes[j + 1..n];
      assert changes[n] == changes[j + 1..][n - j - 1];
      CreatedIsThere(w, changes[..n], j);
      assert changes[..n][..j] == changes[..j];
    } else {
      OpensNow(w.AllChanged(changes[..n]), changes[n]);
    }
  }

  lemma OpensNow(w: World, change: Change)
    requires Sane(w) && change.Created? && change.request.opens && change.request.recognized && change.request.registers
    ensures Has(w.Changed(change), w.hub.nextDeviceId, change.request.path)
  {
  }

  /** The device that was the first one with its path is gone after the path was deleted. */
  lemma {:induction false} DeletedIsGone(w0: World, w: World, changes: seq<Change>, d: int, path: string)
    requires Later(w0, w) && IsFirst(w0, d, path) && Deleted(path) in changes
    ensures d !in w.AllChanged(changes).paths
    decreases |changes|
  {
    hide World.Changed, IsFirst;
    var n := |changes| - 1;
    var before := w.AllChanged(changes[..n]);
    AllChangedLater(w, changes[..n]);
    LaterOn(w0, w, before);
    ChangedLater(before, changes[n]);
    LaterOn(w0, before, w.AllChanged(changes));
    if Deleted(path) in changes[..n] {
      DeletedIsGone(w0, w, changes[..n], d, path);
      StaysGone(before, w.AllChanged(changes), w0, d, path);
    } else {
      FirstGoes(w0, before, d, path);
    }
  }

  /** No other device with the path has a lesser id. */
  ghost predicate IsFirst(w: World, d: int, path: string) {
    Has(w, d, path) && d != VIRTUAL_KEYBOARD_ID && path != VIRTUAL_KEYBOARD_PATH && forall x :: Has(w, x, path) ==> d <= x
  }

  lemma FirstGoes(w0: World, w: World, d: int, path: string)
    requires Later(w0, w) && IsFirst(w0, d, path)
    ensures d !in w.Changed(Deleted(path)).paths
  {
    if d in w.paths {
      assert d in w.At(path);
      var m := Least(w.At(path));
      assert Has(w, m, path);
      assert Has(w0, m, path) || m >= w0.hub.nextDeviceId;
      assert m == d;
    }
  }

  lemma StaysGone(w: World, w': World, w0: World, d: int, path: string)
    requires Later(w0, w) && Later(w, w') && IsFirst(w0, d, path) && d !in w.paths
    ensures d !in w'.paths
  {
  }

  lemma {:induction false} AllPolledLater(w: World, items: seq<Item>)
    requires Sane(w)
    ensures Later(w, w.AllPolled(items)) && w.AllPolled(items).hub.nextDeviceId == w.hub.nextDeviceId
    ensures forall d, path :: Has(w, d, path) && Vanished(d) !in items ==> Has(w.AllPolled(items), d, path)
    ensures forall d :: Vanished(d) in items && d < w.hub.nextDeviceId && d != VIRTUAL_KEYBOARD_ID ==> d !in w.AllPolled(items).paths
    decreases |items|
  {
    hide World.Polled;
    if items != [] {
      var n := |items| - 1;
      AllPolledLater(w, items[..n]);
      PolledLater(w.AllPolled(items[..n]), items[n]);
      LaterOn(w, w.AllPolled(items[..n]), w.AllPolled(items));
    }
  }

  // ----- one turn -----

  /** How many ids a turn gives out before the items are worked off. */
  function OpensFound(found: seq<OpenRequest>, scans: bool): nat {
    if scans then Opens(found) else 0
  }

  lemma AnnouncedLater(w: World, found: seq<OpenRequest>, scans: bool)
    requires Sane(w)
    ensures var w' := w.Announced(found, scans);
            && Later(w, w') && w'.hub.nextDeviceId == w.hub.nextDeviceId + OpensFound(found, scans)
            && (forall d, path :: Has(w, d, path) ==> Has(w', d, path))
            && (scans ==> forall d, path :: Has(w.AllOpened(found), d, path) ==> Has(w', d, path))
            && (scans && VIRTUAL_KEYBOARD_ID !in w.paths ==> Has(w', VIRTUAL_KEYBOARD_ID, VIRTUAL_KEYBOARD_PATH))
  {
    hide World.AllOpened;
    var back := w.(hub := w.hub.AllTakenBack());
    if scans {
      AllOpenedLater(back, found);
      AllOpenedLater(w, found);
      OpenedPaths(w, back, found);
    }
  }

  /** Which paths come does not depend on the events. */
  lemma {:induction false} OpenedPaths(w: World, w': World, found: seq<OpenRequest>)
    requires w.paths == w'.paths && w.hub.nextDeviceId == w'.hub.nextDeviceId
    ensures w.AllOpened(found).paths == w'.AllOpened(found).paths
    ensures w.AllOpened(found).hub.nextDeviceId == w'.AllOpened(found).hub.nextDeviceId
    decreases |found|
  {
    if found != [] {
      OpenedPaths(w, w', found[..|found| - 1]);
    }
  }

  lemma TurnedLater(w: World, found: seq<OpenRequest>, scans: bool, items: seq<Item>)
    requires Sane(w)
    ensures var w' := w.Turned(found, scans, items);
            && Later(w, w') && w'.hub.nextDeviceId == w.hub.nextDeviceId + OpensFound(found, scans) + OpensOf(items)
            && forall d, path :: Has(w, d, path) && Spares(items, d, path) ==> Has(w', d, path)
  {
    hide World.Announced, World.AllPolled, World.AllChanged, Notice;
    AnnouncedLater(w, found, scans);
    var told := w.Announced(found, scans);
    ItemsLater(told, items);
    LaterOn(w, told, w.Turned(found, scans, items));
  }

  /** The items of a poll, and then its notice. */
  ghost function AfterItems(w: World, items: seq<Item>): World {
    match Notice(items)
    case None => w.AllPolled(items)
    case Some(changes) => w.AllPolled(items).AllChanged(changes)
  }

  lemma ItemsLater(w: World, items: seq<Item>)
    requires Sane(w)
    ensures var w' := AfterItems(w, items);
            && Later(w, w') && w'.hub.nextDeviceId == w.hub.nextDeviceId + OpensOf(items)
            && forall d, path :: Has(w, d, path) && Spares(items, d, path) ==> Has(w', d, path)
  {
    hide World.AllPolled, World.AllChanged, Notice;
    AllPolledLater(w, items);
    var polled := w.AllPolled(items);
    match Notice(items)
    case None =>
    case Some(changes) =>
      TellsNotice(items, changes);
      AllChangedLater(polled, changes);
      LaterOn(w, polled, polled.AllChanged(changes));
      assert Notified(changes) in items;
  }

  lemma ItemsCreate(w: World, items: seq<Item>, changes: seq<Change>, j: nat)
    requires Sane(w) && Tells(items, changes) && j < |changes| && changes[j].Created?
    requires changes[j].request.opens && changes[j].request.recognized && changes[j].request.registers
    requires Deleted(changes[j].request.path) !in changes[j + 1..]
    ensures Has(AfterItems(w, items), w.hub.nextDeviceId + OpensIn(changes[..j]), changes[j].request.path)
  {
    hide World.AllPolled, World.AllChanged, Notice, Tells;
    TellsNotice(items, changes);
    AllPolledLater(w, items);
    CreatedIsThere(w.AllPolled(items), changes, j);
  }

  lemma ItemsEnd(w0: World, w: World, items: seq<Item>, item: Item, d: int, path: string)
    requires Later(w0, w) && Has(w0, d, path) && d != VIRTUAL_KEYBOARD_ID
    requires item == Vanished(d) || (item.Notified? && Deleted(path) in item.changes && IsFirst(w0, d, path) && Tells(items, item.changes))
    requires item in items
    ensures d !in AfterItems(w, items).paths
  {
    hide World.AllPolled, World.AllChanged, Notice, Tells, IsFirst;
    AllPolledLater(w, items);
    var polled := w.AllPolled(items);
    LaterOn(w0, w, polled);
    ItemsLater(w, items);
    match item
    case Vanished(_) =>
      match Notice(items) {
        case None =>
        case Some(changes) => AllChangedLater(polled, changes);
      }
    case Notified(changes) =>
      TellsNotice(items, changes);
      DeletedIsGone(w0, polled, changes, d, path);
  }

  // ----- all turns of a call -----

  lemma {:induction false} AllTurnedLater(w: World, found: seq<OpenRequest>, scans: bool, turns: seq<seq<Item>>)
    requires Sane(w)
    ensures var w' := w.AllTurned(found, scans, turns);
            && Later(w, w')
            && w'.hub.nextDeviceId == w.hub.nextDeviceId + (if turns == [] then 0 else OpensFound(found, scans)) + OpensInAll(turns)
            && forall d, path :: Has(w, d, path) && AllSpare(turns, d, path) ==> Has(w', d, path)
    decreases |turns|
  {
    hide World.Turned, OpensFound;
    if turns != [] {
      var n := |turns| - 1;
      var before := w.AllTurned(found, scans, turns[..n]);
      AllTurnedLater(w, found, scans, turns[..n]);
      TurnedLater(before, found, scans && n == 0, turns[n]);
      LaterOn(w, before, w.AllTurned(found, scans, turns));
      assert n > 0 ==> OpensFound(found, scans && n == 0) == 0 by {
        OpensNone(found);
      }
    } else {
      assert forall d, path :: Has(w, d, path) ==> Has(w.AllTurned(found, scans, turns), d, path);
    }
  }

  lemma OpensNone(found: seq<OpenRequest>)
    ensures OpensFound(found, false) == 0
  {
  }

  lemma {:induction false} TurnsCreate(w: World, found: seq<OpenRequest>, scans: bool, turns: seq<seq<Item>>, t: nat, changes: seq<Change>, j: nat)
    requires Sane(w) && t < |turns| && Tells(turns[t], changes) && j < |changes| && changes[j].Created?
    requires changes[j].request.opens && changes[j].request.recognized && changes[j].request.registers
    requires Deleted(changes[j].request.path) !in changes[j + 1..]
    requires var d := w.hub.nextDeviceId + OpensFound(found, scans) + OpensInAll(turns[..t]) + OpensIn(changes[..j]);
             AllSpare(turns[t + 1..], d, changes[j].request.path)
    ensures Has(w.AllTurned(found, scans, turns),
                w.hub.nextDeviceId + OpensFound(found, scans) + OpensInAll(turns[..t]) + OpensIn(changes[..j]), changes[j].request.path)
    decreases |turns|
  {
    hide World.Turned, OpensFound, Tells, Spares;
    var n := |turns| - 1;
    var d := w.hub.nextDeviceId + OpensFound(found, scans) + OpensInAll(turns[..t]) + OpensIn(changes[..j]);
    var before := w.AllTurned(found, scans, turns[..n]);
    AllTurnedLater(w, found, scans, turns[..n]);
    if t < n {
      assert turns[..n][t + 1..] == turns[t + 1..][..n - t - 1] && turns[..n][..t] == turns[..t];
      assert turns[t + 1..][n - t - 1] == turns[n];
      TurnsCreate(w, found, scans, turns[..n], t, changes, j);
      TurnedLater(before, found, scans && n == 0, turns[n]);
    } else {
      TurnCreates(before, found, scans && n == 0, turns[n], changes, j);
      OpensNone(found);
    }
  }

  lemma TurnCreates(w: World, found: seq<OpenRequest>, scans: bool, items: seq<Item>, changes: seq<Change>, j: nat)
    requires Sane(w) && Tells(items, changes) && j < |changes| && changes[j].Created?
    requires changes[j].request.opens && changes[j].request.recognized && changes[j].request.registers
    requires Deleted(changes[j].request.path) !in changes[j + 1..]
    ensures Has(w.Turned(found, scans, items), w.hub.nextDeviceId + OpensFound(found, scans) + OpensIn(changes[..j]), changes[j].request.path)
  {
    hide World.Announced, World.AllPolled, World.AllChanged, Tells;
    AnnouncedLater(w, found, scans);
    ItemsCreate(w.Announced(found, scans), items, changes, j);
  }

  /** A file found by the scan has its device, under the next free id. */
  lemma {:induction false} TurnsFind(w: World, found: seq<OpenRequest>, turns: seq<seq<Item>>, j: nat)
    requires Sane(w) && turns != [] && j < |found| && found[j].opens && found[j].recognized && found[j].registers
    requires AllSpare(turns, w.hub.nextDeviceId + Opens(found[..j]), found[j].path)
    ensures Has(w.AllTurned(found, true, turns), w.hub.nextDeviceId + Opens(found[..j]), found[j].path)
    decreases |turns|
  {
    hide World.Turned, Spares, World.Announced, World.AllOpened;
    var n := |turns| - 1;
    var d := w.hub.nextDeviceId + Opens(found[..j]);
    var before := w.AllTurned(found, true, turns[..n]);
    AllTurnedLater(w, found, true, turns[..n]);
    if n > 0 {
      TurnsFind(w, found, turns[..n], j);
      TurnedLater(before, found, false, turns[n]);
    } else {
      FoundIsThere(w, found, j);
      AnnouncedLater(w, found, true);
      ItemsLater(w.Announced(found, true), turns[n]);
      TurnedIs(w, found, true, turns[n]);
    }
  }

  /** After a scan there is the virtual keyboard. */
  lemma {:induction false} TurnsMakeVirtual(w: World, found: seq<OpenRequest>, turns: seq<seq<Item>>)
    requires Sane(w) && turns != [] && VIRTUAL_KEYBOARD_ID !in w.paths
    requires AllSpare(turns, VIRTUAL_KEYBOARD_ID, VIRTUAL_KEYBOARD_PATH)
    ensures Has(w.AllTurned(found, true, turns), VIRTUAL_KEYBOARD_ID, VIRTUAL_KEYBOARD_PATH)
    decreases |turns|
  {
    hide World.Turned, Spares, World.Announced, World.AllOpened;
    var n := |turns| - 1;
    AllTurnedLater(w, found, true, turns[..n]);
    if n > 0 {
      TurnsMakeVirtual(w, found, turns[..n]);
      TurnedLater(w.AllTurned(found, true, turns[..n]), found, false, turns[n]);
    } else {
      AnnouncedLater(w, found, true);
      ItemsLater(w.Announced(found, true), turns[n]);
      TurnedIs(w, found, true, turns[n]);
    }
  }

  lemma TurnedIs(w: World, found: seq<OpenRequest>, scans: bool, items: seq<Item>)
    ensures w.Turned(found, scans, items) == AfterItems(w.Announced(found, scans), items)
  {
  }

  /** A device that was there before the call is gone after an item that ends it. */
  lemma {:induction false} TurnsEnd(w: World, found: seq<OpenRequest>, scans: bool, turns: seq<seq<Item>>, t: nat, item: Item, d: int, path: string)
    requires Sane(w) && t < |turns| && item in turns[t] && Has(w, d, path) && d != VIRTUAL_KEYBOARD_ID
    requires item == Vanished(d) || (item.Notified? && Deleted(path) in item.changes && IsFirst(w, d, path) && Tells(turns[t], item.changes))
    ensures d !in w.AllTurned(found, scans, turns).paths
    decreases |turns|
  {
    hide World.Turned, World.Announced, IsFirst, Tells;
    var n := |turns| - 1;
    var before := w.AllTurned(found, scans, turns[..n]);
    AllTurnedLater(w, found, scans, turns[..n]);
    if t < n {
      TurnsEnd(w, found, scans, turns[..n], t, item, d, path);
      TurnedLater(before, found, scans && n == 0, turns[n]);
    } else {
      AnnouncedLater(before, found, scans && n == 0);
      var told := before.Announced(found, scans && n == 0);
      LaterOn(w, before, told);
      ItemsEnd(w, told, turns[n], item, d, path);
      TurnedIs(before, found, scans && n == 0, turns[n]);
    }
  }

  // ----- paths that do not come -----

  ghost predicate NoneCreated(items: seq<Item>, path: string) {
    forall item, c :: item in items && item.Notified? && c in item.changes && c.Created? ==> c.request.path != path
  }

  ghost predicate NoneFound(found: seq<OpenRequest>, path: string) {
    forall request :: request in found ==> request.path != path
  }

  /** No device has come with the path. */
  ghost predicate NoMore(w: World, w': World, path: string) {
    path != VIRTUAL_KEYBOARD_PATH && forall d :: Has(w', d, path) ==> Has(w, d, path)
  }

  lemma {:induction false} NoMoreFound(w: World, found: seq<OpenRequest>, path: string)
    requires NoneFound(found, path) && path != VIRTUAL_KEYBOARD_PATH
    ensures NoMore(w, w.AllOpened(found), path)
    decreases |found|
  {
    if found != [] {
      NoMoreFound(w, found[..|found| - 1], path);
    }
  }

  lemma {:induction false} NoMoreChanged(w: World, changes: seq<Change>, path: string)
    requires path != VIRTUAL_KEYBOARD_PATH && forall c :: c in changes && c.Created? ==> c.request.path != path
    ensures NoMore(w, w.AllChanged(changes), path)
    decreases |changes|
  {
    if changes != [] {
      NoMoreChanged(w, changes[..|changes| - 1], path);
    }
  }

  lemma {:induction false} NoMorePolled(w: World, items: seq<Item>, path: string)
    requires path != VIRTUAL_KEYBOARD_PATH
    ensures NoMore(w, w.AllPolled(items), path)
    decreases |items|
  {
    if items != [] {
      NoMorePolled(w, items[..|items| - 1], path);
    }
  }

  lemma NoMoreAnnounced(w: World, found: seq<OpenRequest>, scans: bool, path: string)
    requires path != VIRTUAL_KEYBOARD_PATH && (scans ==> NoneFound(found, path))
    ensures NoMore(w, w.Announced(found, scans), path)
  {
    hide World.AllOpened;
    if scans {
      var back := w.(hub := w.hub.AllTakenBack());
      NoMoreFound(back, found, path);
      forall d | Has(w.Announced(found, scans), d, path)
        ensures Has(w, d, path)
      {
        assert Has(back.AllOpened(found), d, path);
        assert Has(back, d, path);
      }
    }
  }

  lemma NoMoreTurned(w: World, found: seq<OpenRequest>, scans: bool, items: seq<Item>, path: string)
    requires path != VIRTUAL_KEYBOARD_PATH && (scans ==> NoneFound(found, path)) && NoneCreated(items, path)
    ensures NoMore(w, w.Turned(found, scans, items), path)
  {
    hide World.Announced, World.AllPolled, World.AllChanged, Notice;
    var told := w.Announced(found, scans);
    NoMoreAnnounced(w, found, scans, path);
    NoMorePolled(told, items, path);
    match Notice(items)
    case None =>
    case Some(changes) =>
      TellsNotice(items, changes);
      assert Notified(changes) in items;
      NoMoreChanged(told.AllPolled(items), changes, path);
  }

  lemma {:induction false} NoMoreTurns(w: World, found: seq<OpenRequest>, scans: bool, turns: seq<seq<Item>>, path: string)
    requires path != VIRTUAL_KEYBOARD_PATH && (scans ==> NoneFound(found, path))
    requires forall t :: 0 <= t < |turns| ==> NoneCreated(turns[t], path)
    ensures NoMore(w, w.AllTurned(found, scans, turns), path)
    decreases |turns|
  {
    hide World.Turned, NoneCreated;
    if turns != [] {
      var n := |turns| - 1;
      NoMoreTurns(w, found, scans, turns[..n], path);
      NoMoreTurned(w.AllTurned(found, scans, turns[..n]), found, scans && n == 0, turns[n], path);
    }
  }

  // ----- input -----

  /** The input of one device, in order. */
  ghost function CodesTold(events: seq<Event>, d: int): seq<int> {
    if events == [] then []
    else
      var e := events[|events| - 1];
      CodesTold(events[..|events| - 1], d) + if e.Input? && e.device == d then [e.code] else []
  }

  ghost function CodesRead(items: seq<Item>, d: int): seq<int> {
    if items == [] then []
    else
      var item := items[|items| - 1];
      CodesRead(items[..|items| - 1], d) + if item.Readable? && item.device == d then item.codes else []
  }

  ghost function CodesReadInAll(batches: seq<seq<Item>>, d: int): seq<int> {
    if batches == [] then [] else CodesReadInAll(batches[..|batches| - 1], d) + CodesRead(batches[|batches| - 1], d)
  }

  lemma {:induction false} CodesConcat(events: seq<Event>, more: seq<Event>, d: int)
    ensures CodesTold(events + more, d) == CodesTold(events, d) + CodesTold(more, d)
    decreases |more|
  {
    if more == [] {
      assert events + more == events;
    } else {
      CodesConcat(events, more[..|more| - 1], d);
      assert (events + more)[..|events + more| - 1] == events + more[..|more| - 1];
    }
  }

  lemma {:induction false} NoCodes(events: seq<Event>, d: int)
    requires forall e :: e in events ==> !e.Input?
    ensures CodesTold(events, d) == []
    decreases |events|
  {
    if events != [] {
      NoCodes(events[..|events| - 1], d);
    }
  }

  lemma {:induction false} InputCodes(deviceId: int, id: int, codes: seq<int>, d: int)
    ensures CodesTold(InputEvents(deviceId, id, codes), d) == if d == id then codes else []
    decreases |codes|
  {
    if codes != [] {
      var n := |codes| - 1;
      InputCodes(deviceId, id, codes[..n], d);
      assert InputEvents(deviceId, id, codes)[..n] == InputEvents(deviceId, id, codes[..n]);
      assert codes[..n] + [codes[n]] == codes;
    }
  }

  lemma CodesOfOne(w: World, item: Item, d: int)
    requires d in w.paths
    ensures CodesTold(w.Polled(item).hub.outbox, d)
            == CodesTold(w.hub.outbox, d) + if item.Readable? && item.device == d then item.codes else []
  {
    hide CodesTold, World.Closed;
    match item
    case Readable(id, codes) =>
      InputCodes(w.hub.Alias(id), id, codes, d);
      CodesConcat(w.hub.outbox, InputEvents(w.hub.Alias(id), id, codes), d);
    case Vanished(id) => ClosedOutbox(w, id);
    case _ =>
  }

  lemma {:induction false} CodesPolled(w: World, items: seq<Item>, d: int, path: string)
    requires Sane(w) && Has(w, d, path) && Vanished(d) !in items
    ensures CodesTold(w.AllPolled(items).hub.outbox, d) == CodesTold(w.hub.outbox, d) + CodesRead(items, d)
    decreases |items|
  {
    hide World.Polled, CodesTold;
    if items != [] {
      var n := |items| - 1;
      AllPolledLater(w, items[..n]);
      CodesPolled(w, items[..n], d, path);
      CodesOfOne(w.AllPolled(items[..n]), items[n], d);
    }
  }

  lemma ClosedOutbox(w: World, id: int)
    ensures w.Closed(id).hub.outbox == w.hub.outbox
  {
  }

  lemma {:induction false} ChangedOutbox(w: World, changes: seq<Change>)
    ensures w.AllChanged(changes).hub.outbox == w.hub.outbox
    decreases |changes|
  {
    if changes != [] {
      ChangedOutbox(w, changes[..|changes| - 1]);
    }
  }

  lemma {:induction false} OpenedOutbox(w: World, requests: seq<OpenRequest>)
    ensures w.AllOpened(requests).hub.outbox == w.hub.outbox
    decreases |requests|
  {
    if requests != [] {
      OpenedOutbox(w, requests[..|requests| - 1]);
    }
  }

  lemma CodesAnnounced(w: World, found: seq<OpenRequest>, scans: bool, d: int)
    ensures CodesTold(w.Announced(found, scans).hub.outbox, d) == CodesTold(w.hub.outbox, d)
  {
    hide World.AllOpened, CodesTold;
    var back := w.(hub := w.hub.AllTakenBack());
    var scanned := if scans then back.Scanned(found).Due() else back;
    OpenedOutbox(back, found);
    var removed, added := RemovedEvents(w.hub.closing), AddedEvents(scanned.hub.opening, scanned.hub.builtInKeyboardId);
    CodesConcat(w.hub.outbox, removed, d);
    CodesConcat(back.hub.outbox, added, d);
    CodesConcat(scanned.hub.AllAnnounced().outbox, [FinishedScan], d);
    NoCodes(removed, d);
    NoCodes(added, d);
    NoCodes([FinishedScan], d);
  }

  /** The reader gets all input of a device that stays, in order. */
  lemma {:induction false} CodesTurned(w: World, found: seq<OpenRequest>, scans: bool, turns: seq<seq<Item>>, d: int, path: string)
    requires Sane(w) && Has(w, d, path) && AllSpare(turns, d, path)
    ensures CodesTold(w.AllTurned(found, scans, turns).hub.outbox, d) == CodesTold(w.hub.outbox, d) + CodesReadInAll(turns, d)
    decreases |turns|
  {
    hide World.Announced, World.AllPolled, World.AllChanged, CodesTold, CodesRead, Spares, Notice;
    if turns != [] {
      var n := |turns| - 1;
      var before := w.AllTurned(found, scans, turns[..n]);
      AllTurnedLater(w, found, scans, turns[..n]);
      CodesTurned(w, found, scans, turns[..n], d, path);
      AnnouncedLater(before, found, scans && n == 0);
      CodesAnnounced(before, found, scans && n == 0, d);
      Spared(turns[n], d, path);
      CodesPolled(before.Announced(found, scans && n == 0), turns[n], d, path);
      match Notice(turns[n])
      case None =>
      case Some(changes) => ChangedOutbox(before.Announced(found, scans && n == 0).AllPolled(turns[n]), changes);
    }
  }

  lemma Spared(items: seq<Item>, d: int, path: string)
    requires Spares(items, d, path)
    ensures Vanished(d) !in items
  {
  }

  // ----- the end of a scan -----

  /** More events have been sent. */
  ghost predicate Sent(w: World, w': World) {
    w.hub.outbox <= w'.hub.outbox
  }

  /** The end of a scan is among them. */
  ghost predicate SentEnd(w: World, w': World) {
    Sent(w, w') && FinishedScan in w'.hub.outbox[|w.hub.outbox|..]
  }

  lemma {:induction false} PolledSends(w: World, items: seq<Item>)
    ensures Sent(w, w.AllPolled(items))
    decreases |items|
  {
    if items != [] {
      var before := w.AllPolled(items[..|items| - 1]);
      PolledSends(w, items[..|items| - 1]);
      match items[|items| - 1]
      case Vanished(id) => ClosedOutbox(before, id);
      case _ =>
    }
  }

  lemma AnnouncedSends(w: World, found: seq<OpenRequest>, scans: bool)
    ensures Sent(w, w.Announced(found, scans)) && (scans ==> SentEnd(w, w.Announced(found, scans)))
  {
    hide World.AllOpened;
    var back := w.(hub := w.hub.AllTakenBack());
    OpenedOutbox(back, found);
    var scanned := if scans then back.Scanned(found).Due() else back;
    var told, after := scanned.hub.AllAnnounced(), w.Announced(found, scans);
    assert w.hub.outbox <= back.hub.outbox <= told.outbox;
    if scans {
      assert after.hub.outbox == told.outbox + [FinishedScan];
      assert after.hub.outbox[|told.outbox|] == FinishedScan;
      assert after.hub.outbox[|w.hub.outbox|..][|told.outbox| - |w.hub.outbox|] == FinishedScan;
    }
  }

  lemma TurnSends(w: World, found: seq<OpenRequest>, scans: bool, items: seq<Item>)
    ensures Sent(w, w.Turned(found, scans, items)) && (scans ==> SentEnd(w, w.Turned(found, scans, items)))
  {
    hide World.Announced, World.AllPolled, World.AllChanged, Notice;
    AnnouncedSends(w, found, scans);
    var told := w.Announced(found, scans);
    PolledSends(told, items);
    match Notice(items)
    case None =>
    case Some(changes) => ChangedOutbox(told.AllPolled(items), changes);
    if scans {
      EndStays(w, told, w.Turned(found, scans, items));
    }
  }

  lemma EndStays(w: World, w': World, w'': World)
    requires SentEnd(w, w') && Sent(w', w'')
    ensures SentEnd(w, w'')
  {
    var n := |w.hub.outbox|;
    var i :| 0 <= i < |w'.hub.outbox[n..]| && w'.hub.outbox[n..][i] == FinishedScan;
    assert w''.hub.outbox[n..][i] == w'.hub.outbox[n..][i];
  }

  lemma {:induction false} ScanEnds(w: World, found: seq<OpenRequest>, turns: seq<seq<Item>>)
    requires turns != []
    ensures SentEnd(w, w.AllTurned(found, true, turns))
    decreases |turns|
  {
    hide World.Turned, SentEnd;
    var n := |turns| - 1;
    TurnSends(w.AllTurned(found, true, turns[..n]), found, n == 0, turns[n]);
    if n > 0 {
      ScanEnds(w, found, turns[..n]);
      EndStays(w, w.AllTurned(found, true, turns[..n]), w.AllTurned(found, true, turns));
    }
  }

  // ----- turns and polls -----

  /** The turns are the batches of items, each worked off in one turn, and further turns without items. */
  ghost predicate Fits(turns: seq<seq<Item>>, batches: seq<seq<Item>>)
    decreases |turns|
  {
    if turns == [] then batches == []
    else
      var n := |turns| - 1;
      || (turns[n] == [] && Fits(turns[..n], batches))
      || (batches != [] && turns[n] == batches[|batches| - 1] && Fits(turns[..n], batches[..|batches| - 1]))
  }

  lemma FitsOneMore(turns: seq<seq<Item>>, batches: seq<seq<Item>>, items: seq<Item>)
    requires Fits(turns, batches)
    ensures Fits(turns + [items], batches + [items]) && (items == [] ==> Fits(turns + [items], batches))
  {
    assert (turns + [items])[..|turns|] == turns && (batches + [items])[..|batches|] == batches;
  }

  lemma {:induction false} FitsInAll(turns: seq<seq<Item>>, batches: seq<seq<Item>>, d: int, path: string)
    requires Fits(turns, batches)
    ensures OpensInAll(turns) == OpensInAll(batches) && CodesReadInAll(turns, d) == CodesReadInAll(batches, d)
    ensures AllSpare(batches, d, path) ==> AllSpare(turns, d, path)
    ensures (forall b :: 0 <= b < |batches| ==> NoneCreated(batches[b], path)) ==> forall t :: 0 <= t < |turns| ==> NoneCreated(turns[t], path)
    ensures batches != [] ==> turns != []
    decreases |turns|
  {
    if turns != [] {
      var n, m := |turns| - 1, |batches| - 1;
      if turns[n] == [] && Fits(turns[..n], batches) {
        FitsInAll(turns[..n], batches, d, path);
        assert Notice(turns[n]) == None;
      } else {
        FitsInAll(turns[..n], batches[..m], d, path);
        assert AllSpare(batches, d, path) ==> AllSpare(batches[..m], d, path) && Spares(turns[n], d, path);
      }
    }
  }

  /** The turn of a batch. */
  ghost predicate IsTurnOf(turns: seq<seq<Item>>, batches: seq<seq<Item>>, b: nat, t: nat) {
    b < |batches| && t < |turns| && turns[t] == batches[b] && Fits(turns[..t], batches[..b]) && Fits(turns[t + 1..], batches[b + 1..])
  }

  lemma TurnStays(turns: seq<seq<Item>>, batches: seq<seq<Item>>, b: nat, t: nat, items: seq<Item>)
    requires IsTurnOf(turns, batches, b, t)
    ensures IsTurnOf(turns + [items], batches + [items], b, t)
    ensures items == [] ==> IsTurnOf(turns + [items], batches, b, t)
  {
    hide Fits;
    FitsOneMore(turns[t + 1..], batches[b + 1..], items);
    assert (turns + [items])[..t] == turns[..t] && (turns + [items])[t + 1..] == turns[t + 1..] + [items];
    assert (batches + [items])[..b] == batches[..b] && (batches + [items])[b + 1..] == batches[b + 1..] + [items];
  }

  lemma {:induction false} FitsAt(turns: seq<seq<Item>>, batches: seq<seq<Item>>, b: nat) returns (t: nat)
    requires Fits(turns, batches) && b < |batches|
    ensures IsTurnOf(turns, batches, b, t)
    decreases |turns|
  {
    hide IsTurnOf;
    var n, m := |turns| - 1, |batches| - 1;
    assert turns[..n] + [turns[n]] == turns && batches[..m] + [batches[m]] == batches;
    if turns[n] == [] && Fits(turns[..n], batches) {
      t := FitsAt(turns[..n], batches, b);
      TurnStays(turns[..n], batches, b, t, turns[n]);
    } else if b == m {
      t := n;
      LastTurn(turns, batches);
    } else {
      t := FitsAt(turns[..n], batches[..m], b);
      TurnStays(turns[..n], batches[..m], b, t, turns[n]);
    }
  }

  lemma LastTurn(turns: seq<seq<Item>>, batches: seq<seq<Item>>)
    requires turns != [] && batches != []
    requires turns[|turns| - 1] == batches[|batches| - 1] && Fits(turns[..|turns| - 1], batches[..|batches| - 1])
    ensures IsTurnOf(turns, batches, |batches| - 1, |turns| - 1)
  {
  }

  // ----- a whole call -----

  /** The items that were pending, and those of each poll. */
  ghost function BatchesOf(first: seq<Item>, polls: seq<Poll>): seq<seq<Item>> {
    [first] + seq(|polls|, i requires 0 <= i < |polls| => polls[i].items)
  }

  lemma BatchesAre(first: seq<Item>, polls: seq<Poll>)
    ensures |BatchesOf(first, polls)| == |polls| + 1
    ensures polls == [] ==> BatchesOf(first, polls) == [first]
    ensures polls != [] ==> BatchesOf(first, polls) == BatchesOf(first, polls[..|polls| - 1]) + [polls[|polls| - 1].items]
  {
  }

  /** All batches so far have had their turns; the last one may still be waiting for its own. */
  ghost predicate InTurns(turns: seq<seq<Item>>, pending: seq<Item>, waiting: bool, first: seq<Item>, polls: seq<Poll>, used: nat) {
    used <= |polls|
    && var all := BatchesOf(first, polls[..used]);
       if waiting then all[|all| - 1] == pending && Fits(turns, all[..|all| - 1]) else pending == [] && Fits(turns, all)
  }

  lemma NoneInTurns(first: seq<Item>, polls: seq<Poll>)
    ensures InTurns([], first, true, first, polls, 0)
  {
  }

  lemma AllInTurns(turns: seq<seq<Item>>, first: seq<Item>, polls: seq<Poll>, used: nat)
    requires InTurns(turns, [], false, first, polls, used)
    ensures used <= |polls| && Fits(turns, BatchesOf(first, polls[..used]))
  {
  }

  lemma TurnDone(turns: seq<seq<Item>>, pending: seq<Item>, waiting: bool, first: seq<Item>, polls: seq<Poll>, used: nat)
    requires InTurns(turns, pending, waiting, first, polls, used)
    ensures InTurns(turns + [pending], [], false, first, polls, used)
  {
    hide Fits;
    var all := BatchesOf(first, polls[..used]);
    if waiting {
      FitsOneMore(turns, all[..|all| - 1], pending);
      assert all[..|all| - 1] + [pending] == all;
    } else {
      FitsOneMore(turns, all, pending);
    }
  }

  lemma PollDone(turns: seq<seq<Item>>, first: seq<Item>, polls: seq<Poll>, used: nat)
    requires InTurns(turns, [], false, first, polls, used) && used < |polls|
    ensures InTurns(turns, polls[used].items, true, first, polls, used + 1)
  {
    hide Fits, BatchesOf;
    BatchesAre(first, polls[..used + 1]);
    assert polls[..used + 1][..used] == polls[..used];
    var all := BatchesOf(first, polls[..used + 1]);
    assert all[..|all| - 1] == BatchesOf(first, polls[..used]);
  }

  ghost predicate IsAdded(events: seq<Event>, d: int) {
    exists e :: e in events && e.Added? && e.device == d
  }

  ghost predicate IsRemoved(events: seq<Event>, d: int) {
    exists e :: e in events && e.Removed? && e.device == d
  }

  /** A file whose device can be opened, is of a kind the hub handles, and can be registered. */
  predicate IsGood(request: OpenRequest) {
    request.opens && request.recognized && request.registers
  }

  /** A file that a notice says was created has a connected device, and the reader is told of it, unless the file
      is deleted later or the device vanishes.  Ids are given out in order, one for each file that opens. */
  ghost predicate CreatedStay(firstId: int, batches: seq<seq<Item>>, paths: map<int, string>, events: seq<Event>) {
    forall b, changes: seq<Change>, j :: 0 <= b < |batches| && Tells(batches[b], changes) && 0 <= j < |changes| && changes[j].Created? && IsGood(changes[j].request) ==>
      var d, path := firstId + OpensInAll(batches[..b]) + OpensIn(changes[..j]), changes[j].request.path;
      Deleted(path) !in changes[j + 1..] && AllSpare(batches[b + 1..], d, path) ==>
        d in paths && paths[d] == path && IsAdded(events, d)
  }

  /** The same for the files that a scan finds. */
  ghost predicate FoundStay(firstId: int, found: seq<OpenRequest>, batches: seq<seq<Item>>, paths: map<int, string>, events: seq<Event>) {
    forall j :: 0 <= j < |found| && IsGood(found[j]) && AllSpare(batches, firstId + Opens(found[..j]), found[j].path) ==>
      var d := firstId + Opens(found[..j]);
      d in paths && paths[d] == found[j].path && IsAdded(events, d)
  }

  /** A scan makes sure of the virtual keyboard. */
  ghost predicate VirtualIsThere(before: map<int, string>, batches: seq<seq<Item>>, paths: map<int, string>) {
    VIRTUAL_KEYBOARD_ID !in before && AllSpare(batches, VIRTUAL_KEYBOARD_ID, VIRTUAL_KEYBOARD_PATH) ==>
      VIRTUAL_KEYBOARD_ID in paths && paths[VIRTUAL_KEYBOARD_ID] == VIRTUAL_KEYBOARD_PATH
  }

  /** A device that was there stays unless its file is deleted or it vanishes, and all its input is passed on. */
  ghost predicate OthersStay(before: map<int, string>, batches: seq<seq<Item>>, paths: map<int, string>, events: seq<Event>) {
    forall d :: d in before && AllSpare(batches, d, before[d]) ==>
      d in paths && paths[d] == before[d] && CodesTold(events, d) == CodesReadInAll(batches, d)
  }

  /** The item says that the device vanished, or that its file was deleted while it is the first one of that path. */
  ghost predicate EndsNow(before: map<int, string>, items: seq<Item>, item: Item, d: int) {
    && d in before && d != VIRTUAL_KEYBOARD_ID && item in items
    && (item == Vanished(d)
        || (item.Notified? && Tells(items, item.changes) && Deleted(before[d]) in item.changes
            && before[d] != VIRTUAL_KEYBOARD_PATH && forall x :: x in before && before[x] == before[d] ==> d <= x))
  }

  /** Such a device goes, and is taken back if the reader knew of it. */
  ghost predicate EndedGo(before: map<int, string>, known: set<int>, batches: seq<seq<Item>>, paths: map<int, string>, events: seq<Event>) {
    forall d, b, item :: 0 <= b < |batches| && EndsNow(before, batches[b], item, d) ==> d !in paths && (d in known ==> IsRemoved(events, d))
  }

  /** A path that is deleted and does not come again belongs to no device afterwards, if it belonged to one. */
  ghost predicate DeletedPathsGo(before: map<int, string>, found: seq<OpenRequest>, scans: bool, batches: seq<seq<Item>>, paths: map<int, string>) {
    forall d, b, changes :: d in before && d != VIRTUAL_KEYBOARD_ID && 0 <= b < |batches| && Tells(batches[b], changes) && Deleted(before[d]) in changes ==>
      before[d] != VIRTUAL_KEYBOARD_PATH && (forall x :: x in before && before[x] == before[d] ==> x == d)
      && (scans ==> NoneFound(found, before[d])) && (forall c :: 0 <= c < |batches| ==> NoneCreated(batches[c], before[d])) ==>
        forall x :: x in paths ==> paths[x] != before[d]
  }

  lemma {:induction false} BecameKnown(events: seq<Event>, more: seq<Event>, d: int)
    requires d !in Replay(events).known && d in Replay(events + more).known
    ensures IsAdded(more, d)
    decreases |more|
  {
    assert more == [] ==> events + more == events;
    if more != [] {
      var n := |more| - 1;
      assert (events + more)[..|events| + n] == events + more[..n];
      if d in Replay(events + more[..n]).known {
        BecameKnown(events, more[..n], d);
      } else {
        assert more[n].Added? && more[n].device == d;
      }
    }
  }

  lemma {:induction false} BecameUnknown(events: seq<Event>, more: seq<Event>, d: int)
    requires d in Replay(events).known && d !in Replay(events + more).known
    ensures IsRemoved(more, d)
    decreases |more|
  {
    assert more == [] ==> events + more == events;
    if more != [] {
      var n := |more| - 1;
      assert (events + more)[..|events| + n] == events + more[..n];
      if d !in Replay(events + more[..n]).known {
        BecameUnknown(events, more[..n], d);
      } else {
        assert more[n].Removed? && more[n].device == d;
      }
    }
  }

  /** What a call that ends with nothing left to announce starts from, does and reaches. */
  ghost predicate IsCall(w: World, found: seq<OpenRequest>, scans: bool, turns: seq<seq<Item>>, batches: seq<seq<Item>>, events: seq<Event>) {
    var w' := w.AllTurned(found, scans, turns);
    && Sane(w) && w.hub.Fit() && Fits(turns, batches) && batches != []
    && w'.hub.outbox == w.hub.outbox + events && Replay(w'.hub.outbox).known == w'.paths.Keys
  }

  lemma NewIsAdded(w: World, found: seq<OpenRequest>, scans: bool, turns: seq<seq<Item>>, batches: seq<seq<Item>>, events: seq<Event>, d: int)
    requires IsCall(w, found, scans, turns, batches, events) && d in w.AllTurned(found, scans, turns).paths
    requires w.hub.nextDeviceId <= d
    ensures IsAdded(events, d)
  {
    hide World.AllTurned, Replay, AllLegal, Fits;
    assert !w.hub.IsKnown(d);
    BecameKnown(w.hub.outbox, events, d);
  }

  lemma CallCreates(w: World, found: seq<OpenRequest>, scans: bool, turns: seq<seq<Item>>, batches: seq<seq<Item>>, events: seq<Event>)
    requires IsCall(w, found, scans, turns, batches, events)
    ensures CreatedStay(w.hub.nextDeviceId + OpensFound(found, scans), batches, w.AllTurned(found, scans, turns).paths, events)
  {
    hide World.AllTurned, Replay, Tells, AllSpare, IsCall, OpensFound, OpensIn;
    var firstId, w' := w.hub.nextDeviceId + OpensFound(found, scans), w.AllTurned(found, scans, turns);
    forall b, changes: seq<Change>, j | 0 <= b < |batches| && Tells(batches[b], changes) && 0 <= j < |changes| && changes[j].Created? && IsGood(changes[j].request)
      ensures var d, path := firstId + OpensInAll(batches[..b]) + OpensIn(changes[..j]), changes[j].request.path;
              Deleted(path) !in changes[j + 1..] && AllSpare(batches[b + 1..], d, path) ==>
                d in w'.paths && w'.paths[d] == path && IsAdded(events, d)
    {
      var d, path := firstId + OpensInAll(batches[..b]) + OpensIn(changes[..j]), changes[j].request.path;
      if Deleted(path) !in changes[j + 1..] && AllSpare(batches[b + 1..], d, path) {
        CallCreatesOne(w, found, scans, turns, batches, events, b, changes, j);
      }
    }
  }

  lemma CallCreatesOne(w: World, found: seq<OpenRequest>, scans: bool, turns: seq<seq<Item>>, batches: seq<seq<Item>>, events: seq<Event>,
                       b: nat, changes: seq<Change>, j: nat)
    requires IsCall(w, found, scans, turns, batches, events) && b < |batches| && Tells(batches[b], changes)
    requires j < |changes| && changes[j].Created? && IsGood(changes[j].request) && Deleted(changes[j].request.path) !in changes[j + 1..]
    requires AllSpare(batches[b + 1..], w.hub.nextDeviceId + OpensFound(found, scans) + OpensInAll(batches[..b]) + OpensIn(changes[..j]), changes[j].request.path)
    ensures var d := w.hub.nextDeviceId + OpensFound(found, scans) + OpensInAll(batches[..b]) + OpensIn(changes[..j]);
            Has(w.AllTurned(found, scans, turns), d, changes[j].request.path) && IsAdded(events, d)
  {
    hide World.AllTurned, Replay, Tells, AllSpare, Fits, Hub.Fit;
    var d := w.hub.nextDeviceId + OpensFound(found, scans) + OpensInAll(batches[..b]) + OpensIn(changes[..j]);
    var t := FitsAt(turns, batches, b);
    FitsInAll(turns[..t], batches[..b], d, changes[j].request.path);
    FitsInAll(turns[t + 1..], batches[b + 1..], d, changes[j].request.path);
    TurnsCreate(w, found, scans, turns, t, changes, j);
    NewIsAdded(w, found, scans, turns, batches, events, d);
  }

  lemma CallFinds(w: World, found: seq<OpenRequest>, turns: seq<seq<Item>>, batches: seq<seq<Item>>, events: seq<Event>)
    requires IsCall(w, found, true, turns, batches, events)
    ensures FoundStay(w.hub.nextDeviceId, found, batches, w.AllTurned(found, true, turns).paths, events)
    ensures VirtualIsThere(w.paths, batches, w.AllTurned(found, true, turns).paths) && FinishedScan in events
  {
    hide World.AllTurned, Replay, AllSpare, Fits, Hub.Fit;
    FitsInAll(turns, batches, VIRTUAL_KEYBOARD_ID, VIRTUAL_KEYBOARD_PATH);
    ScanEnds(w, found, turns);
    if VIRTUAL_KEYBOARD_ID !in w.paths && AllSpare(batches, VIRTUAL_KEYBOARD_ID, VIRTUAL_KEYBOARD_PATH) {
      TurnsMakeVirtual(w, found, turns);
    }
    forall j | 0 <= j < |found| && IsGood(found[j]) && AllSpare(batches, w.hub.nextDeviceId + Opens(found[..j]), found[j].path)
      ensures var d := w.hub.nextDeviceId + Opens(found[..j]); Has(w.AllTurned(found, true, turns), d, found[j].path) && IsAdded(events, d)
    {
      var d := w.hub.nextDeviceId + Opens(found[..j]);
      FitsInAll(turns, batches, d, found[j].path);
      TurnsFind(w, found, turns, j);
      NewIsAdded(w, found, true, turns, batches, events, d);
    }
  }

  lemma CallKeeps(w: World, found: seq<OpenRequest>, scans: bool, turns: seq<seq<Item>>, batches: seq<seq<Item>>, events: seq<Event>)
    requires IsCall(w, found, scans, turns, batches, events)
    ensures OthersStay(w.paths, batches, w.AllTurned(found, scans, turns).paths, events)
  {
    hide World.AllTurned, Replay, AllSpare, Fits, Hub.Fit, CodesTold, CodesReadInAll;
    var w' := w.AllTurned(found, scans, turns);
    forall d | d in w.paths && AllSpare(batches, d, w.paths[d])
      ensures Has(w', d, w.paths[d]) && CodesTold(events, d) == CodesReadInAll(batches, d)
    {
      FitsInAll(turns, batches, d, w.paths[d]);
      AllTurnedLater(w, found, scans, turns);
      CodesTurned(w, found, scans, turns, d, w.paths[d]);
      CodesConcat(w.hub.outbox, events, d);
      SameRest(CodesTold(w.hub.outbox, d), CodesTold(events, d), CodesReadInAll(batches, d));
    }
  }

  lemma SameRest(a: seq<int>, b: seq<int>, c: seq<int>)
    requires a + b == a + c
    ensures b == c
  {
    assert b == (a + b)[|a|..] && c == (a + c)[|a|..];
  }

  lemma CallEnds(w: World, found: seq<OpenRequest>, scans: bool, turns: seq<seq<Item>>, batches: seq<seq<Item>>, events: seq<Event>)
    requires IsCall(w, found, scans, turns, batches, events)
    ensures EndedGo(w.paths, Replay(w.hub.outbox).known, batches, w.AllTurned(found, scans, turns).paths, events)
  {
    hide World.AllTurned, Replay, Tells, Fits, Hub.Fit;
    var w' := w.AllTurned(found, scans, turns);
    forall d, b, item | 0 <= b < |batches| && EndsNow(w.paths, batches[b], item, d)
      ensures d !in w'.paths && (d in Replay(w.hub.outbox).known ==> IsRemoved(events, d))
    {
      var t := FitsAt(turns, batches, b);
      TurnsEnd(w, found, scans, turns, t, item, d, w.paths[d]);
      if d in Replay(w.hub.outbox).known {
        BecameUnknown(w.hub.outbox, events, d);
      }
    }
  }

  lemma CallDeletes(w: World, found: seq<OpenRequest>, scans: bool, turns: seq<seq<Item>>, batches: seq<seq<Item>>, events: seq<Event>)
    requires IsCall(w, found, scans, turns, batches, events)
    ensures DeletedPathsGo(w.paths, found, scans, batches, w.AllTurned(found, scans, turns).paths)
  {
    hide World.AllTurned, Replay, Tells, Fits, Hub.Fit, NoneCreated, NoneFound;
    var w' := w.AllTurned(found, scans, turns);
    forall d, b, changes | d in w.paths && d != VIRTUAL_KEYBOARD_ID && 0 <= b < |batches| && Tells(batches[b], changes) && Deleted(w.paths[d]) in changes
      ensures w.paths[d] != VIRTUAL_KEYBOARD_PATH && (forall x :: x in w.paths && w.paths[x] == w.paths[d] ==> x == d)
              && (scans ==> NoneFound(found, w.paths[d])) && (forall c :: 0 <= c < |batches| ==> NoneCreated(batches[c], w.paths[d])) ==>
                forall x :: x in w'.paths ==> w'.paths[x] != w.paths[d]
    {
      var path := w.paths[d];
      if path != VIRTUAL_KEYBOARD_PATH && (forall x :: x in w.paths && w.paths[x] == path ==> x == d)
         && (scans ==> NoneFound(found, path)) && (forall c :: 0 <= c < |batches| ==> NoneCreated(batches[c], path)) {
        var t := FitsAt(turns, batches, b);
        TellsItem(batches[b], changes);
        TurnsEnd(w, found, scans, turns, t, Notified(changes), d, path);
        FitsInAll(turns, batches, d, path);
        NoMoreTurns(w, found, scans, turns, path);
        forall x | x in w'.paths
          ensures w'.paths[x] != path
        {
          assert Has(w', x, path) ==> Has(w, x, path);
        }
      }
    }
  }

  lemma TellsItem(items: seq<Item>, changes: seq<Change>)
    requires Tells(items, changes)
    ensures Notified(changes) in items
  {
  }
}
