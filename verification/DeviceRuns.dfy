/** Runs of the event hub: any sequence of devices opening and closing, of reports and of input. */
module DeviceRuns {
  import opened BitSets
  import opened DeviceEvents
  import opened DeviceLists

  datatype Step =
    | Open(eligibleKeyboard: bool, registers: bool)
    | OpenVirtual
    | Close(device: int)
    | TakeBack
    | Announce
    | Scan
    | EndScan
    | Read(device: int, code: int)

  ghost predicate CanDo(h: Hub, step: Step) {
    match step
    case Open(_, _) => true
    case OpenVirtual => VIRTUAL_KEYBOARD_ID !in h.devices && VIRTUAL_KEYBOARD_ID !in h.closing
    case Close(id) => id in h.devices
    case TakeBack => h.closing != []
    case Announce => h.opening != []
    case Scan => true
    case EndScan => true
    case Read(id, _) => id in h.devices && id !in h.opening && !Replay(h.outbox).changing
  }

  ghost function Do(h: Hub, step: Step): Hub
    requires CanDo(h, step)
  {
    match step
    case Open(eligible, registers) =>
      if registers then h.WithNewId(eligible).Opened(h.nextDeviceId) else h.WithNewId(eligible)
    case OpenVirtual => h.Opened(VIRTUAL_KEYBOARD_ID)
    case Close(id) => h.Closed(id)
    case TakeBack => h.TakenBack()
    case Announce => h.Announced()
    case Scan => h.(scanDue := true)
    case EndScan => h.ScanEnded()
    case Read(id, code) => h.WithInput(id, code)
  }

  lemma StepFits(h: Hub, step: Step)
    requires h.Fit() && CanDo(h, step)
    ensures Do(h, step).Fit()
  {
    hide Hub.Fit, AllLegal, Replay;
    match step
    case Open(eligible, registers) =>
      NewIdFits(h, eligible);
      OpenedFits(h.WithNewId(eligible), h.nextDeviceId);
    case OpenVirtual => OpenedFits(h, VIRTUAL_KEYBOARD_ID);
    case Close(id) => ClosedFits(h, id);
    case TakeBack => TakenBackFits(h);
    case Announce => AnnouncedFits(h);
    case Scan => ScanDueFits(h);
    case EndScan => ScanEndedFits(h);
    case Read(id, code) => InputFits(h, id, code);
  }

  ghost predicate IsRun(h: Hub, steps: seq<Step>, h': Hub)
    decreases |steps|
  {
    if steps == [] then h == h' else CanDo(h, steps[0]) && IsRun(Do(h, steps[0]), steps[1..], h')
  }

  lemma {:induction false} RunFits(h: Hub, steps: seq<Step>, h': Hub)
    requires h.Fit() && IsRun(h, steps, h')
    ensures h'.Fit()
    decreases |steps|
  {
    hide Hub.Fit, CanDo, Do;
    if steps != [] {
      StepFits(h, steps[0]);
      RunFits(Do(h, steps[0]), steps[1..], h');
    }
  }

  /** In every run the events of each device but the virtual keyboard are one announcement, then input, then
      at most one removal. */
  lemma EachDeviceIsReportedOnce(steps: seq<Step>, h: Hub, d: int)
    requires IsRun(NO_DEVICES, steps, h) && d != VIRTUAL_KEYBOARD_ID
    ensures IsLifeOf(EventsOf(h.outbox, d), d in Replay(h.outbox).known, d in Replay(h.outbox).seen)
    ensures d in Replay(h.outbox).known <==> h.IsKnown(d)
  {
    NothingYet();
    RunFits(NO_DEVICES, steps, h);
    EachDeviceLivesOnce(h.outbox, d);
  }

  /** The device is gone for good: its id is used up and in no table. */
  ghost predicate Retired(h: Hub, d: int) {
    1 <= d < h.nextDeviceId && d !in h.devices && d !in h.opening && d !in h.closing
  }

  lemma StepKeepsRetired(h: Hub, step: Step, d: int)
    requires h.Fit() && CanDo(h, step) && Retired(h, d)
    ensures Retired(Do(h, step), d) && EventsOf(Do(h, step).outbox, d) == EventsOf(h.outbox, d)
  {
    hide Hub.Fit, AllLegal, Replay;
    match step
    case Close(id) =>
      ClosedFits(h, id);
      if id in h.opening {
        WithoutOne(h.opening, PlaceOf(h.opening, id));
      }
    case TakeBack => OneMoreOf(h.outbox, Removed(h.closing[0], h.closing[0]), d);
    case Announce => OneMoreOf(h.outbox, Added(h.Alias(h.opening[0]), h.opening[0]), d);
    case EndScan => OneMoreOf(h.outbox, FinishedScan, d);
    case Read(id, code) => OneMoreOf(h.outbox, Input(h.Alias(id), id, code), d);
    case Open(_, _) =>
    case OpenVirtual =>
    case Scan =>
  }

  lemma OneMoreOf(events: seq<Event>, e: Event, d: int)
    ensures EventsOf(events + [e], d) == EventsOf(events, d) + if Concerns(e, d) then [e] else []
  {
    assert (events + [e])[..|events|] == events;
  }

  lemma {:induction false} RunKeepsRetired(h: Hub, steps: seq<Step>, h': Hub, d: int)
    requires h.Fit() && IsRun(h, steps, h') && Retired(h, d)
    ensures EventsOf(h'.outbox, d) == EventsOf(h.outbox, d)
    decreases |steps|
  {
    hide Hub.Fit, CanDo, Do, Retired, EventsOf;
    if steps != [] {
      StepFits(h, steps[0]);
      StepKeepsRetired(h, steps[0], d);
      RunKeepsRetired(Do(h, steps[0]), steps[1..], h', d);
    }
  }

  /** A device that is closed before it was announced never shows up in any event, however the run goes on. */
  lemma ClosedUnannouncedLeavesNoTrace(h: Hub, d: int, steps: seq<Step>, h': Hub)
    requires h.Fit() && d in h.opening && d != VIRTUAL_KEYBOARD_ID && IsRun(h.Closed(d), steps, h')
    ensures EventsOf(h'.outbox, d) == []
  {
    EachDeviceLivesOnce(h.outbox, d);
    assert d !in Replay(h.outbox).seen && 1 <= d < h.nextDeviceId;
    ClosedFits(h, d);
    WithoutOne(h.opening, PlaceOf(h.opening, d));
    assert Retired(h.Closed(d), d);
    RunKeepsRetired(h.Closed(d), steps, h', d);
  }

  // ----- the id a device is reported under -----

  /** Whether a connected device is the built-in keyboard is settled when it is opened. */
  lemma StepKeepsPlace(h: Hub, step: Step, d: int)
    requires h.Fit() && CanDo(h, step) && 1 <= d < h.nextDeviceId && d in Do(h, step).devices
    ensures d in h.devices && d < Do(h, step).nextDeviceId
    ensures Do(h, step).builtInKeyboardId == d <==> h.builtInKeyboardId == d
  {
    hide AllLegal, Replay;
  }

  lemma {:induction false} RunKeepsPlace(h: Hub, steps: seq<Step>, h': Hub, d: int)
    requires h.Fit() && IsRun(h, steps, h') && 1 <= d < h.nextDeviceId
    ensures d in h'.devices ==> d in h.devices && (h'.builtInKeyboardId == d <==> h.builtInKeyboardId == d)
    decreases |steps|
  {
    hide Hub.Fit, CanDo, Do;
    if steps != [] {
      StepFits(h, steps[0]);
      if d in Do(h, steps[0]).devices {
        StepKeepsPlace(h, steps[0], d);
      } else {
        KeepsId(h, steps[0], d);
      }
      RunKeepsPlace(Do(h, steps[0]), steps[1..], h', d);
    }
  }

  lemma KeepsId(h: Hub, step: Step, d: int)
    requires CanDo(h, step) && d < h.nextDeviceId
    ensures d < Do(h, step).nextDeviceId
  {
  }

  lemma {:induction false} RunKeepsEvents(h: Hub, steps: seq<Step>, h': Hub)
    requires IsRun(h, steps, h')
    ensures h.outbox <= h'.outbox
    decreases |steps|
  {
    if steps != [] {
      assert h.outbox <= Do(h, steps[0]).outbox;
      RunKeepsEvents(Do(h, steps[0]), steps[1..], h');
    }
  }

  /** A device is opened, announced and taken back, whatever else happens before, between and after.  Its
      announcement and its removal carry the same id unless it could become the built-in keyboard and there
      was none when it was opened. */
  lemma ReportedUnderOneIdIff(before: seq<Step>, h0: Hub, eligible: bool, between: seq<Step>, h1: Hub, after: seq<Step>, h2: Hub, j: nat)
    requires IsRun(NO_DEVICES, before, h0)
    requires IsRun(Do(h0, Open(eligible, true)), between, h1) && h1.opening != [] && h1.opening[0] == h0.nextDeviceId
    requires IsRun(Do(h1, Announce), after, h2)
    requires |h1.outbox| < j < |h2.outbox| && h2.outbox[j].Removed? && h2.outbox[j].device == h0.nextDeviceId
    ensures var added := h2.outbox[|h1.outbox|];
            && added.Added? && added.device == h0.nextDeviceId
            && (added.deviceId == h2.outbox[j].deviceId <==> !(eligible && h0.builtInKeyboardId == NO_BUILT_IN_KEYBOARD))
  {
    hide Hub.Fit, AllLegal, Replay, IsRun;
    var begun, d := Do(h0, Open(eligible, true)), h0.nextDeviceId;
    NothingYet();
    RunFits(NO_DEVICES, before, h0);
    StepFits(h0, Open(eligible, true));
    RunFits(begun, between, h1);
    StepFits(h1, Announce);
    RunFits(Do(h1, Announce), after, h2);
    RunKeepsEvents(Do(h1, Announce), after, h2);
    assert h2.outbox[|h1.outbox|] == Do(h1, Announce).outbox[|h1.outbox|];
    IsLegalAt(h2, j);
    OpenPlace(h0, eligible);
    FirstIsThere(h1);
    RunKeepsPlace(begun, between, h1, d);
  }

  lemma IsLegalAt(h: Hub, j: nat)
    requires h.Fit() && j < |h.outbox| && h.outbox[j].Removed?
    ensures h.outbox[j].deviceId == h.outbox[j].device
  {
    assert Legal(Replay(h.outbox[..j]), h.outbox[j]);
  }

  lemma OpenPlace(h: Hub, eligible: bool)
    requires h.Fit()
    ensures var begun, d := Do(h, Open(eligible, true)), h.nextDeviceId;
            && 1 <= d < begun.nextDeviceId
            && (begun.builtInKeyboardId == d <==> eligible && h.builtInKeyboardId == NO_BUILT_IN_KEYBOARD)
  {
    hide AllLegal, Replay;
  }

  lemma FirstIsThere(h: Hub)
    requires h.Fit() && h.opening != []
    ensures h.opening[0] in h.devices
  {
    hide AllLegal, Replay;
    AnnouncedListed(h);
  }

  /** Such a run: the first keyboard is announced as the built-in one and taken back as itself. */
  lemma BuiltInKeyboardIsTakenBackAsItself()
    ensures exists h: Hub :: IsRun(NO_DEVICES, [Open(true, true), Announce, Close(1), TakeBack], h) && h.outbox == [Added(BUILT_IN_KEYBOARD_ID, 1), Removed(1, 1)]
  {
    var h1 := Do(NO_DEVICES, Open(true, true));
    var h2 := Do(h1, Announce);
    var h3 := Do(h2, Close(1));
    var h4 := Do(h3, TakeBack);
    assert IsRun(h4, [], h4) && IsRun(h3, [TakeBack], h4) && IsRun(h2, [Close(1), TakeBack], h4);
    assert [Announce, Close(1), TakeBack][1..] == [Close(1), TakeBack];
    assert IsRun(h1, [Announce, Close(1), TakeBack], h4);
    assert [Open(true, true), Announce, Close(1), TakeBack][1..] == [Announce, Close(1), TakeBack];
    assert IsRun(NO_DEVICES, [Open(true, true), Announce, Close(1), TakeBack], h4);
  }
}
