/** What the event hub makes of device files and polls is a run of its steps. */
module DeviceTurns {
  import opened BitSets
  import opened DeviceChanges
  import opened DeviceEvents
  import opened DeviceLists
  import opened DeviceRuns
  import opened Options

  ghost predicate Reaches(h: Hub, h': Hub) {
    exists steps: seq<Step> :: IsRun(h, steps, h')
  }

  lemma Stays(h: Hub)
    ensures Reaches(h, h)
  {
    assert IsRun(h, [], h);
  }

  lemma {:induction false} RunGoesOn(h: Hub, steps: seq<Step>, h': Hub, more: seq<Step>, h'': Hub)
    requires IsRun(h, steps, h') && IsRun(h', more, h'')
    ensures IsRun(h, steps + more, h'')
    decreases |steps|
  {
    hide CanDo, Do;
    if steps == [] {
      assert steps + more == more;
    } else {
      RunGoesOn(Do(h, steps[0]), steps[1..], h', more, h'');
      assert (steps + more)[1..] == steps[1..] + more;
    }
  }

  lemma GoesOn(h: Hub, h': Hub, h'': Hub)
    requires Reaches(h, h') && Reaches(h', h'')
    ensures Reaches(h, h'')
  {
    hide IsRun;
    var steps :| IsRun(h, steps, h');
    var more :| IsRun(h', more, h'');
    RunGoesOn(h, steps, h', more, h'');
  }

  lemma OneStep(h: Hub, step: Step)
    requires CanDo(h, step)
    ensures Reaches(h, Do(h, step))
  {
    assert IsRun(Do(h, step), [], Do(h, step));
    assert [step][1..] == [];
    assert IsRun(h, [step], Do(h, step));
  }

  /** One step further, and the invariant with it. */
  lemma StepOn(h: Hub, h': Hub, step: Step)
    requires Reaches(h, h') && h'.Fit() && CanDo(h', step)
    ensures Reaches(h, Do(h', step)) && Do(h', step).Fit()
  {
    hide Reaches, Hub.Fit, CanDo, Do;
    OneStep(h', step);
    GoesOn(h, h', Do(h', step));
    StepFits(h', step);
  }

  // ----- lists -----

  lemma {:induction false} AllTakenBackReached(h: Hub, h': Hub)
    requires Reaches(h, h') && h'.Fit()
    ensures Reaches(h, h'.AllTakenBack()) && h'.AllTakenBack().Fit()
    decreases |h'.closing|
  {
    hide Reaches, Hub.Fit;
    if h'.closing != [] {
      StepOn(h, h', TakeBack);
      AllTakenBackStep(h');
      AllTakenBackReached(h, h'.TakenBack());
    } else {
      assert h'.AllTakenBack() == h';
    }
  }

  lemma {:induction false} AllAnnouncedReached(h: Hub, h': Hub)
    requires Reaches(h, h') && h'.Fit()
    ensures Reaches(h, h'.AllAnnounced()) && h'.AllAnnounced().Fit()
    decreases |h'.opening|
  {
    hide Reaches, Hub.Fit;
    if h'.opening != [] {
      StepOn(h, h', Announce);
      AllAnnouncedStep(h');
      AllAnnouncedReached(h, h'.Announced());
    } else {
      assert h'.AllAnnounced() == h';
    }
  }

  lemma {:induction false} AllClosedReached(h: Hub, h': Hub)
    requires Reaches(h, h') && h'.Fit()
    ensures Reaches(h, h'.AllClosed()) && h'.AllClosed().Fit()
    decreases |h'.devices|
  {
    hide Reaches, Hub.Fit;
    if h'.devices != {} {
      StepOn(h, h', Close(Greatest(h'.devices)));
      AllClosedReached(h, h'.Closed(Greatest(h'.devices)));
    }
  }

  // ----- device files -----

  /** The world was reached from hub `h`. */
  ghost predicate At(h: Hub, w: World) {
    Reaches(h, w.hub) && w.hub.Fit() && w.paths.Keys == w.hub.devices
  }

  lemma OpenedAt(h: Hub, w: World, request: OpenRequest)
    requires At(h, w)
    ensures At(h, w.Opened(request)) && w.Opened(request).hub.closing == w.hub.closing
  {
    hide Reaches, Hub.Fit;
    if request.opens {
      StepOn(h, w.hub, Open(request.recognized && request.eligibleKeyboard, request.recognized && request.registers));
    }
  }

  lemma ClosedAt(h: Hub, w: World, id: int)
    requires At(h, w) && id in w.paths
    ensures At(h, w.Closed(id))
    ensures w.hub.opening == [] ==> w.Closed(id).hub.opening == []
  {
    hide Reaches, Hub.Fit;
    StepOn(h, w.hub, Close(id));
  }

  lemma {:induction false} AllOpenedAt(h: Hub, w: World, requests: seq<OpenRequest>)
    requires At(h, w)
    ensures At(h, w.AllOpened(requests)) && w.AllOpened(requests).hub.closing == w.hub.closing
    decreases |requests|
  {
    hide At, World.Opened;
    if requests != [] {
      AllOpenedAt(h, w, requests[..|requests| - 1]);
      OpenedAt(h, w.AllOpened(requests[..|requests| - 1]), requests[|requests| - 1]);
    }
  }

  lemma ScannedAt(h: Hub, w: World, found: seq<OpenRequest>)
    requires At(h, w) && w.hub.closing == []
    ensures At(h, w.Scanned(found).Due())
  {
    hide Reaches, Hub.Fit, World.AllOpened;
    AllOpenedAt(h, w, found);
    var all := w.AllOpened(found);
    if VIRTUAL_KEYBOARD_ID !in all.paths {
      StepOn(h, all.hub, OpenVirtual);
    }
    StepOn(h, w.Scanned(found).hub, Scan);
  }

  lemma {:induction false} AllChangedAt(h: Hub, w: World, changes: seq<Change>)
    requires At(h, w)
    ensures At(h, w.AllChanged(changes))
    decreases |changes|
  {
    hide At, World.Opened, World.Closed;
    if changes != [] {
      var before := w.AllChanged(changes[..|changes| - 1]);
      AllChangedAt(h, w, changes[..|changes| - 1]);
      match changes[|changes| - 1]
      case Created(request) => OpenedAt(h, before, request);
      case Deleted(path) =>
        if before.At(path) != {} {
          ClosedAt(h, before, Least(before.At(path)));
        }
    }
  }

  // ----- polls -----

  /** Everything is announced, so that input may be passed on. */
  ghost predicate ReadyForInput(h: Hub) {
    h.opening == [] && !Replay(h.outbox).changing
  }

  lemma {:induction false} InputReached(h: Hub, h': Hub, id: int, codes: seq<int>)
    requires Reaches(h, h') && h'.Fit() && id in h'.devices && ReadyForInput(h')
    ensures var read := h'.(outbox := h'.outbox + InputEvents(h'.Alias(id), id, codes));
            Reaches(h, read) && read.Fit() && ReadyForInput(read)
    decreases |codes|
  {
    hide Reaches, Hub.Fit, Replay;
    if codes == [] {
      assert h'.outbox + InputEvents(h'.Alias(id), id, codes) == h'.outbox;
    } else {
      var n := |codes| - 1;
      InputReached(h, h', id, codes[..n]);
      var before := h'.(outbox := h'.outbox + InputEvents(h'.Alias(id), id, codes[..n]));
      InputFits(before, id, codes[n]);
      StepOn(h, before, Read(id, codes[n]));
      assert before.WithInput(id, codes[n]).outbox == h'.outbox + InputEvents(h'.Alias(id), id, codes);
    }
  }

  lemma PolledAt(h: Hub, w: World, item: Item)
    requires At(h, w) && ReadyForInput(w.hub)
    ensures At(h, w.Polled(item)) && ReadyForInput(w.Polled(item).hub)
  {
    hide Reaches, Hub.Fit, Replay;
    match item
    case Readable(id, codes) =>
      if id in w.paths {
        InputReached(h, w.hub, id, codes);
      }
    case Vanished(id) =>
      if id in w.paths {
        ClosedAt(h, w, id);
      }
    case _ =>
  }

  lemma {:induction false} AllPolledAt(h: Hub, w: World, items: seq<Item>)
    requires At(h, w) && ReadyForInput(w.hub)
    ensures At(h, w.AllPolled(items)) && ReadyForInput(w.AllPolled(items).hub)
    decreases |items|
  {
    hide At, ReadyForInput, World.Polled;
    if items != [] {
      AllPolledAt(h, w, items[..|items| - 1]);
      PolledAt(h, w.AllPolled(items[..|items| - 1]), items[|items| - 1]);
    }
  }

  // ----- turns -----

  lemma AnnouncedAt(h: Hub, w: World, found: seq<OpenRequest>, scans: bool)
    requires At(h, w)
    ensures At(h, w.Announced(found, scans)) && ReadyForInput(w.Announced(found, scans).hub)
  {
    hide Reaches, Hub.Fit, Replay, World.Scanned;
    AllTakenBackReached(h, w.hub);
    var back := w.(hub := w.hub.AllTakenBack());
    if scans {
      ScannedAt(h, back, found);
    }
    var scanned := if scans then back.Scanned(found).Due() else back;
    AllAnnouncedReached(h, scanned.hub);
    EndedReached(h, scanned.hub.AllAnnounced());
  }

  lemma EndedReached(h: Hub, h': Hub)
    requires Reaches(h, h') && h'.Fit() && h'.opening == []
    ensures var ended := if h'.scanDue then h'.ScanEnded() else h';
            Reaches(h, ended) && ended.Fit() && ReadyForInput(ended)
  {
    hide Reaches, Replay, AllLegal, Hub.Listed, Hub.Numbered, Hub.IsKnown;
    if h'.scanDue {
      ScanEndedFits(h');
      StepOn(h, h', EndScan);
    }
  }

  lemma TurnedAt(h: Hub, w: World, found: seq<OpenRequest>, scans: bool, items: seq<Item>)
    requires At(h, w)
    ensures At(h, w.Turned(found, scans, items))
  {
    hide At, ReadyForInput, World.Announced, World.AllPolled, World.AllChanged, Notice;
    AnnouncedAt(h, w, found, scans);
    AllPolledAt(h, w.Announced(found, scans), items);
    match Notice(items)
    case None =>
    case Some(changes) => AllChangedAt(h, w.Announced(found, scans).AllPolled(items), changes);
  }

  /** All that the hub does in one call of the reader, in any number of turns, is a run of its steps. */
  lemma {:induction false} TurnsAreARun(h: Hub, w: World, found: seq<OpenRequest>, scans: bool, turns: seq<seq<Item>>)
    requires At(h, w)
    ensures At(h, w.AllTurned(found, scans, turns))
    ensures Reaches(h, w.AllTurned(found, scans, turns).hub.AllClosed())
    decreases |turns|
  {
    hide At, World.Turned, Hub.AllClosed;
    if turns != [] {
      var n := |turns| - 1;
      TurnsAreARun(h, w, found, scans, turns[..n]);
      TurnedAt(h, w.AllTurned(found, scans, turns[..n]), found, scans && n == 0, turns[n]);
    }
    ReachedAt(h, w.AllTurned(found, scans, turns));
  }

  lemma ReachedAt(h: Hub, w: World)
    requires At(h, w)
    ensures Reaches(h, w.hub.AllClosed())
  {
    hide Reaches, Hub.Fit, Hub.AllClosed;
    AllClosedReached(h, w.hub);
  }

  /** So a device file that goes before its device was announced leaves no trace in the events of any call
      that follows. */
  lemma ClosedUnannouncedIsNeverReported(w: World, d: int, found: seq<OpenRequest>, scans: bool, turns: seq<seq<Item>>)
    requires w.hub.Fit() && w.paths.Keys == w.hub.devices && d in w.hub.opening && d != VIRTUAL_KEYBOARD_ID
    ensures EventsOf(w.Closed(d).AllTurned(found, scans, turns).hub.outbox, d) == []
  {
    hide Hub.Fit, World.AllTurned, IsRun, EventsOf, Hub.Closed;
    OpeningIsThere(w.hub, d);
    var h := w.Closed(d).hub;
    Stays(h);
    ClosedFits(w.hub, d);
    ClosedDevices(w.hub, d);
    TurnsAreARun(h, w.Closed(d), found, scans, turns);
    var steps :| IsRun(h, steps, w.Closed(d).AllTurned(found, scans, turns).hub);
    ClosedUnannouncedLeavesNoTrace(w.hub, d, steps, w.Closed(d).AllTurned(found, scans, turns).hub);
  }

  lemma OpeningIsThere(h: Hub, d: int)
    requires h.Fit() && d in h.opening
    ensures d in h.devices
  {
    hide AllLegal, Replay;
  }

  lemma ClosedDevices(h: Hub, d: int)
    ensures h.Closed(d).devices == h.devices - {d}
  {
  }
}
