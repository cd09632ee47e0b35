/** Writing results as commands and reading them back. */
module CommandRoundTrip {
  import opened CommandStream
  import opened Options

  datatype Pair = Pair(layer: nat, value: nat)

  /** What a composer has to say about one display: the optional parts are commands that may be left out; a
      fence is the index of a handle.  The errors come with the places of the commands that failed. */
  datatype DisplayResult = DisplayResult(
    display: nat, changed: seq<Pair>, requests: Option<(nat, seq<Pair>)>, presentFence: Option<nat>, released: seq<Pair>,
    state: Option<nat>, failures: seq<CommandError>)

  ghost predicate PairsFit(pairs: seq<Pair>) {
    3 * |pairs| + 1 < HALF && forall i :: 0 <= i < |pairs| ==> pairs[i].layer < WORD * WORD && pairs[i].value < WORD
  }

  /** 32 bits, signed. */
  predicate IsSigned(n: int) {
    -0x8000_0000 <= n < 0x8000_0000
  }

  ghost predicate Fits(r: DisplayResult) {
    && r.display < WORD * WORD && PairsFit(r.changed) && PairsFit(r.released)
    && (r.requests.Some? ==> PairsFit(r.requests.value.1))
    && forall i :: 0 <= i < |r.failures| ==> r.failures[i].location < WORD && IsSigned(r.failures[i].error)
  }

  function Low(n: nat): nat {
    n % WORD
  }

  function High(n: nat): nat {
    n / WORD
  }

  function Triples(pairs: seq<Pair>): (args: seq<nat>)
    ensures |args| == 3 * |pairs|
  {
    if pairs == [] then []
    else Triples(pairs[..|pairs| - 1]) + [Low(pairs[|pairs| - 1].layer), High(pairs[|pairs| - 1].layer), pairs[|pairs| - 1].value]
  }

  function Command(opcode: Opcode, args: seq<nat>): seq<nat> {
    [NumberOf(opcode) * HALF + |args|] + args
  }

  /** A negative number as a word. */
  function Unsigned(n: int): nat
    requires IsSigned(n)
  {
    if n < 0 then n + WORD else n
  }

  function ErrorCommands(errors: seq<CommandError>): seq<nat>
    requires forall i :: 0 <= i < |errors| ==> errors[i].location < WORD && IsSigned(errors[i].error)
  {
    if errors == [] then [] else Command(SetError, [errors[0].location, Unsigned(errors[0].error)]) + ErrorCommands(errors[1..])
  }

  function Encode(r: DisplayResult): seq<nat>
    requires Fits(r)
  {
    Command(SelectDisplay, [Low(r.display), High(r.display)])
    + Command(SetChangedCompositionTypes, Triples(r.changed))
    + (if r.requests.Some? then Command(SetDisplayRequests, [r.requests.value.0] + Triples(r.requests.value.1)) else [])
    + (if r.presentFence.Some? then Command(SetPresentFence, [r.presentFence.value]) else [])
    + Command(SetReleaseFences, Triples(r.released))
    + (if r.state.Some? then Command(SetPresentOrValidateDisplayResult, [r.state.value]) else [])
    + ErrorCommands(r.failures)
  }

  function EncodeAll(rs: seq<DisplayResult>): seq<nat>
    requires forall i :: 0 <= i < |rs| ==> Fits(rs[i])
  {
    if rs == [] then [] else Encode(rs[0]) + EncodeAll(rs[1..])
  }

  function LayersOf(pairs: seq<Pair>): seq<nat> {
    seq(|pairs|, i requires 0 <= i < |pairs| => pairs[i].layer)
  }

  function ValuesOf(pairs: seq<Pair>): seq<nat> {
    seq(|pairs|, i requires 0 <= i < |pairs| => pairs[i].value)
  }

  function DupsIn(handles: seq<bool>, pairs: seq<Pair>, n: nat): nat
    requires n <= |pairs|
  {
    if n == 0 then 0 else DupsIn(handles, pairs, n - 1) + if HasFence(handles, pairs[n - 1].value) then 1 else 0
  }

  function FencesOf(handles: seq<bool>, pairs: seq<Pair>, nextFence: nat): seq<int> {
    seq(|pairs|, i requires 0 <= i < |pairs| => FenceOf(handles, pairs[i].value, nextFence + DupsIn(handles, pairs, i)))
  }

  /** The results that a reader should have: the descriptors are numbered as they come. */
  function DataOf(r: DisplayResult, handles: seq<bool>, nextFence: nat): ReturnData {
    var present := if r.presentFence.Some? then FenceOf(handles, r.presentFence.value, nextFence) else NO_FENCE;
    ReturnData(
      if r.requests.Some? then r.requests.value.0 else 0,
      LayersOf(r.changed), AllSigned(ValuesOf(r.changed)),
      if r.requests.Some? then LayersOf(r.requests.value.1) else [],
      if r.requests.Some? then ValuesOf(r.requests.value.1) else [],
      present,
      LayersOf(r.released), FencesOf(handles, r.released, nextFence + if present >= 0 then 1 else 0),
      if r.state.Some? then r.state.value else 0)
  }

  function DupsOf(r: DisplayResult, handles: seq<bool>): nat {
    (if r.presentFence.Some? && HasFence(handles, r.presentFence.value) then 1 else 0) + DupsIn(handles, r.released, |r.released|)
  }

  // ----- one command -----

  lemma WideOfHalves(n: nat)
    ensures Wide(Low(n), High(n)) == n
  {
  }

  lemma HeaderParts(opcode: Opcode, length: nat)
    requires !opcode.Unknown? && length < HALF
    ensures var w := NumberOf(opcode) * HALF + length; w % HALF == length && OpcodeOf(w / HALF) == opcode
  {
  }

  /** An accepted command is read whole, and nothing beyond it. */
  lemma ReadCommand(r: Results, handles: seq<bool>, opcode: Opcode, args: seq<nat>, rest: seq<nat>)
    requires r.Valid() && !opcode.Unknown? && |args| < HALF && Execute(r, handles, opcode, args).Some?
    ensures Execute(r, handles, opcode, args).value.Valid()
    ensures Read(r, handles, Command(opcode, args) + rest) == Read(Execute(r, handles, opcode, args).value, handles, rest)
  {
    hide Execute;
    KeepsValid(r, handles, opcode, args);
    HeaderParts(opcode, |args|);
    var words := Command(opcode, args) + rest;
    assert words[0] == NumberOf(opcode) * HALF + |args|;
    assert words[1..1 + |args|] == args && words[1 + |args|..] == rest;
  }

  // ----- triples -----

  lemma {:induction false} TripleAt(pairs: seq<Pair>, i: nat)
    requires i < |pairs|
    ensures var t := Triples(pairs);
            t[3 * i] == Low(pairs[i].layer) && t[3 * i + 1] == High(pairs[i].layer) && t[3 * i + 2] == pairs[i].value
    decreases |pairs|
  {
    if i < |pairs| - 1 {
      TripleAt(pairs[..|pairs| - 1], i);
    }
  }

  lemma TriplesDecode(pairs: seq<Pair>)
    ensures Layers(Triples(pairs)) == LayersOf(pairs) && Thirds(Triples(pairs)) == ValuesOf(pairs)
  {
    hide Triples, Wide, Low, High;
    var t := Triples(pairs);
    assert |t| / 3 == |pairs|;
    forall i | 0 <= i < |pairs|
      ensures Layers(t)[i] == pairs[i].layer && Thirds(t)[i] == pairs[i].value
    {
      TripleAt(pairs, i);
      WideOfHalves(pairs[i].layer);
    }
  }

  lemma {:induction false} DupsAgree(handles: seq<bool>, pairs: seq<Pair>, n: nat)
    requires n <= |pairs|
    ensures FencesIn(handles, Triples(pairs), n) == DupsIn(handles, pairs, n)
  {
    hide Triples;
    if n > 0 {
      DupsAgree(handles, pairs, n - 1);
      TripleAt(pairs, n - 1);
    }
  }

  lemma FencesDecode(handles: seq<bool>, pairs: seq<Pair>, nextFence: nat)
    ensures Fences(handles, Triples(pairs), nextFence) == FencesOf(handles, pairs, nextFence)
    ensures FencesIn(handles, Triples(pairs), |Triples(pairs)| / 3) == DupsIn(handles, pairs, |pairs|)
  {
    hide Triples, FencesIn, DupsIn, FenceOf;
    var t := Triples(pairs);
    assert |t| / 3 == |pairs|;
    DupsAgree(handles, pairs, |pairs|);
    forall i | 0 <= i < |pairs|
      ensures Fences(handles, t, nextFence)[i] == FencesOf(handles, pairs, nextFence)[i]
    {
      DupsAgree(handles, pairs, i);
      TripleAt(pairs, i);
    }
  }

  // ----- one display -----

  lemma ReadSelect(r: Results, handles: seq<bool>, display: nat, rest: seq<nat>)
    requires r.Valid() && display !in r.displays
    ensures var next := r.(displays := r.displays[display := NO_DATA], current := Some(display));
            Read(r, handles, Command(SelectDisplay, [Low(display), High(display)]) + rest) == Read(next, handles, rest)
  {
    WideOfHalves(display);
    ReadCommand(r, handles, SelectDisplay, [Low(display), High(display)], rest);
  }

  lemma ReadChanged(r: Results, handles: seq<bool>, pairs: seq<Pair>, rest: seq<nat>)
    requires r.Valid() && r.current.Some? && PairsFit(pairs) && r.Data().changedLayers == [] && r.Data().compositionTypes == []
    ensures Read(r, handles, Command(SetChangedCompositionTypes, Triples(pairs)) + rest)
         == Read(r.With(r.Data().(changedLayers := LayersOf(pairs), compositionTypes := AllSigned(ValuesOf(pairs)))), handles, rest)
  {
    hide Triples, Layers, Thirds, Read;
    assert (3 * |pairs|) % 3 == 0;
    TriplesDecode(pairs);
    assert [] + LayersOf(pairs) == LayersOf(pairs) && [] + AllSigned(ValuesOf(pairs)) == AllSigned(ValuesOf(pairs));
    ReadCommand(r, handles, SetChangedCompositionTypes, Triples(pairs), rest);
  }

  lemma ReadRequests(r: Results, handles: seq<bool>, mask: nat, pairs: seq<Pair>, rest: seq<nat>)
    requires r.Valid() && r.current.Some? && PairsFit(pairs) && r.Data().requestedLayers == [] && r.Data().requestMasks == []
    ensures Read(r, handles, Command(SetDisplayRequests, [mask] + Triples(pairs)) + rest)
         == Read(r.With(r.Data().(displayRequests := mask, requestedLayers := LayersOf(pairs), requestMasks := ValuesOf(pairs))), handles, rest)
  {
    hide Triples, Layers, Thirds, Read;
    var args := [mask] + Triples(pairs);
    assert |args| == 3 * |pairs| + 1 && |args| % 3 == 1 && args[1..] == Triples(pairs);
    TriplesDecode(pairs);
    assert [] + LayersOf(pairs) == LayersOf(pairs) && [] + ValuesOf(pairs) == ValuesOf(pairs);
    ReadCommand(r, handles, SetDisplayRequests, args, rest);
  }

  lemma ReadPresent(r: Results, handles: seq<bool>, word: nat, rest: seq<nat>)
    requires r.Valid() && r.current.Some? && r.Data().presentFence < 0
    ensures var fence := FenceOf(handles, word, r.nextFence);
            Read(r, handles, Command(SetPresentFence, [word]) + rest)
            == Read(r.With(r.Data().(presentFence := fence)).(nextFence := r.nextFence + if fence >= 0 then 1 else 0), handles, rest)
  {
    hide Read;
    assert r.closed + [] == r.closed;
    ReadCommand(r, handles, SetPresentFence, [word], rest);
  }

  lemma ReadReleased(r: Results, handles: seq<bool>, pairs: seq<Pair>, rest: seq<nat>)
    requires r.Valid() && r.current.Some? && PairsFit(pairs) && r.Data().releasedLayers == [] && r.Data().releaseFences == []
    ensures Read(r, handles, Command(SetReleaseFences, Triples(pairs)) + rest)
         == Read(r.With(r.Data().(releasedLayers := LayersOf(pairs), releaseFences := FencesOf(handles, pairs, r.nextFence)))
                  .(nextFence := r.nextFence + DupsIn(handles, pairs, |pairs|)), handles, rest)
  {
    hide Triples, Layers, Thirds, Fences, FencesIn, DupsIn, FencesOf, Read;
    assert (3 * |pairs|) % 3 == 0;
    TriplesDecode(pairs);
    FencesDecode(handles, pairs, r.nextFence);
    assert [] + LayersOf(pairs) == LayersOf(pairs);
    assert [] + FencesOf(handles, pairs, r.nextFence) == FencesOf(handles, pairs, r.nextFence);
    ReadCommand(r, handles, SetReleaseFences, Triples(pairs), rest);
  }

  lemma ReadState(r: Results, handles: seq<bool>, state: nat, rest: seq<nat>)
    requires r.Valid() && r.current.Some?
    ensures Read(r, handles, Command(SetPresentOrValidateDisplayResult, [state]) + rest)
         == Read(r.With(r.Data().(presentOrValidateState := state)), handles, rest)
  {
    hide Read;
    ReadCommand(r, handles, SetPresentOrValidateDisplayResult, [state], rest);
  }

  lemma {:induction false} ReadErrors(r: Results, handles: seq<bool>, errors: seq<CommandError>, rest: seq<nat>)
    requires r.Valid()
    requires forall i :: 0 <= i < |errors| ==> errors[i].location < WORD && IsSigned(errors[i].error)
    ensures Read(r, handles, ErrorCommands(errors) + rest) == Read(r.(errors := r.errors + errors), handles, rest)
    decreases |errors|
  {
    hide Read, Command;
    if errors == [] {
      assert ErrorCommands(errors) + rest == rest && r.errors + errors == r.errors;
    } else {
      var first, others := Command(SetError, [errors[0].location, Unsigned(errors[0].error)]), ErrorCommands(errors[1..]);
      var next := r.(errors := r.errors + [errors[0]]);
      assert Signed(Unsigned(errors[0].error)) == errors[0].error;
      ReadCommand(r, handles, SetError, [errors[0].location, Unsigned(errors[0].error)], others + rest);
      ReadErrors(next, handles, errors[1..], rest);
      assert first + others + rest == first + (others + rest);
      assert r.errors + [errors[0]] + errors[1..] == r.errors + errors;
    }
  }

  ghost function WithFences(r: Results, handles: seq<bool>, d: DisplayResult): Results
    requires r.Valid() && r.current.Some?
  {
    var present := if d.presentFence.Some? then FenceOf(handles, d.presentFence.value, r.nextFence) else NO_FENCE;
    r.With(r.Data().(presentFence := present, releasedLayers := LayersOf(d.released),
                     releaseFences := FencesOf(handles, d.released, r.nextFence + if present >= 0 then 1 else 0)))
     .(nextFence := r.nextFence + DupsOf(d, handles))
  }

  lemma ReadFences(r: Results, handles: seq<bool>, d: DisplayResult, rest: seq<nat>)
    requires r.Valid() && r.current.Some? && Fits(d)
    requires r.Data().presentFence == NO_FENCE && r.Data().releasedLayers == [] && r.Data().releaseFences == []
    ensures WithFences(r, handles, d).Valid()
    ensures Read(r, handles, (if d.presentFence.Some? then Command(SetPresentFence, [d.presentFence.value]) else [])
                             + (Command(SetReleaseFences, Triples(d.released)) + rest))
         == Read(WithFences(r, handles, d), handles, rest)
  {
    hide Read, Command, Triples, LayersOf, FencesOf, DupsIn, PairsFit;
    var c4 := Command(SetReleaseFences, Triples(d.released));
    var r3 := r;
    if d.presentFence.Some? {
      ReadPresent(r, handles, d.presentFence.value, c4 + rest);
      var fence := FenceOf(handles, d.presentFence.value, r.nextFence);
      r3 := r.With(r.Data().(presentFence := fence)).(nextFence := r.nextFence + if fence >= 0 then 1 else 0);
    } else {
      NothingFirst(c4 + rest);
    }
    ReadReleased(r3, handles, d.released, rest);
    var r4 := r3.With(r3.Data().(releasedLayers := LayersOf(d.released), releaseFences := FencesOf(handles, d.released, r3.nextFence)))
                 .(nextFence := r3.nextFence + DupsIn(handles, d.released, |d.released|));
    assert r4 == WithFences(r, handles, d);
  }

  ghost function AfterDisplay(r: Results, handles: seq<bool>, d: DisplayResult): Results {
    r.(displays := r.displays[d.display := DataOf(d, handles, r.nextFence)], current := Some(d.display),
       nextFence := r.nextFence + DupsOf(d, handles), errors := r.errors + d.failures)
  }

  ghost function WithChanged(r: Results, d: DisplayResult): Results
    requires r.Valid() && r.current.Some?
  {
    r.With(r.Data().(changedLayers := LayersOf(d.changed), compositionTypes := AllSigned(ValuesOf(d.changed))))
  }

  ghost function WithRequests(r: Results, d: DisplayResult): Results
    requires r.Valid() && r.current.Some?
  {
    if d.requests.None? then r
    else r.With(r.Data().(displayRequests := d.requests.value.0, requestedLayers := LayersOf(d.requests.value.1),
                          requestMasks := ValuesOf(d.requests.value.1)))
  }

  ghost function WithState(r: Results, d: DisplayResult): Results
    requires r.Valid() && r.current.Some?
  {
    if d.state.None? then r else r.With(r.Data().(presentOrValidateState := d.state.value))
  }

  ghost function Selected(r: Results, d: DisplayResult): Results {
    r.(displays := r.displays[d.display := NO_DATA], current := Some(d.display))
  }

  /** What the commands of one display add up to. */
  lemma PartsOfDisplay(r: Results, handles: seq<bool>, d: DisplayResult)
    ensures var r0 := Selected(r, d);
            && r0.Valid() && r0.Data() == NO_DATA
            && var r1 := WithChanged(r0, d);
               && r1.Valid() && r1.current.Some? && r1.Data().requestedLayers == [] && r1.Data().requestMasks == []
               && var r2 := WithRequests(r1, d);
                  && r2.Valid() && r2.current.Some? && r2.Data().presentFence == NO_FENCE
                  && r2.Data().releasedLayers == [] && r2.Data().releaseFences == []
                  && var r4 := WithFences(r2, handles, d);
                     && r4.Valid() && r4.current.Some? && AfterDisplay(r, handles, d).Valid() && WithState(r4, d).Valid()
                     && WithState(r4, d).(errors := r.errors + d.failures) == AfterDisplay(r, handles, d) && WithState(r4, d).errors == r.errors
  {
    hide LayersOf, ValuesOf, FencesOf, DupsIn, AllSigned, FenceOf, DupsOf;
    var r4 := WithFences(WithRequests(WithChanged(Selected(r, d), d), d), handles, d);
    assert r4.nextFence == r.nextFence + DupsOf(d, handles);
    assert WithState(r4, d).Data() == DataOf(d, handles, r.nextFence);
    assert WithState(r4, d).displays == r.displays[d.display := DataOf(d, handles, r.nextFence)];
  }

  lemma ReadDisplay(r: Results, handles: seq<bool>, d: DisplayResult, rest: seq<nat>)
    requires r.Valid() && Fits(d) && d.display !in r.displays
    ensures AfterDisplay(r, handles, d).Valid()
    ensures Read(r, handles, Encode(d) + rest) == Read(AfterDisplay(r, handles, d), handles, rest)
  {
    hide Read, Command, Triples, LayersOf, ValuesOf, FencesOf, DupsIn, AllSigned, FenceOf, HasFence, Low, High, PairsFit, AfterDisplay, WithFences,
         ErrorCommands;
    var c0 := Command(SelectDisplay, [Low(d.display), High(d.display)]);
    var c1 := Command(SetChangedCompositionTypes, Triples(d.changed));
    var c2 := if d.requests.Some? then Command(SetDisplayRequests, [d.requests.value.0] + Triples(d.requests.value.1)) else [];
    var c3 := if d.presentFence.Some? then Command(SetPresentFence, [d.presentFence.value]) else [];
    var c4 := Command(SetReleaseFences, Triples(d.released));
    var c5 := if d.state.Some? then Command(SetPresentOrValidateDisplayResult, [d.state.value]) else [];
    var c6 := ErrorCommands(d.failures) + rest;
    Associate(c0, c1, c2, c3, c4, c5, ErrorCommands(d.failures), rest);
    PartsOfDisplay(r, handles, d);
    var r0 := Selected(r, d);
    var r1 := WithChanged(r0, d);
    var r2 := WithRequests(r1, d);
    ReadSelect(r, handles, d.display, c1 + (c2 + (c3 + (c4 + (c5 + c6)))));
    ReadChanged(r0, handles, d.changed, c2 + (c3 + (c4 + (c5 + c6))));
    if d.requests.Some? {
      ReadRequests(r1, handles, d.requests.value.0, d.requests.value.1, c3 + (c4 + (c5 + c6)));
    } else {
      NothingFirst(c3 + (c4 + (c5 + c6)));
    }
    ReadFences(r2, handles, d, c5 + c6);
    if d.state.Some? {
      ReadState(WithFences(r2, handles, d), handles, d.state.value, c6);
    } else {
      NothingFirst(c6);
    }
    ReadErrors(WithState(WithFences(r2, handles, d), d), handles, d.failures, rest);
  }

  lemma NothingFirst(words: seq<nat>)
    ensures [] + words == words
  {
  }

  lemma Associate(c0: seq<nat>, c1: seq<nat>, c2: seq<nat>, c3: seq<nat>, c4: seq<nat>, c5: seq<nat>, c6: seq<nat>, rest: seq<nat>)
    ensures c0 + c1 + c2 + c3 + c4 + c5 + c6 + rest == c0 + (c1 + (c2 + (c3 + (c4 + (c5 + (c6 + rest))))))
  {
  }

  // ----- the whole stream -----

  ghost function AfterDisplays(r: Results, handles: seq<bool>, ds: seq<DisplayResult>): Results
    decreases |ds|
  {
    if ds == [] then r else AfterDisplays(AfterDisplay(r, handles, ds[0]), handles, ds[1..])
  }

  ghost predicate DifferentDisplays(ds: seq<DisplayResult>) {
    forall i, j :: 0 <= i < j < |ds| ==> ds[i].display != ds[j].display
  }

  lemma {:induction false} ReadDisplays(r: Results, handles: seq<bool>, ds: seq<DisplayResult>)
    requires r.Valid() && DifferentDisplays(ds) && forall i :: 0 <= i < |ds| ==> Fits(ds[i]) && ds[i].display !in r.displays
    ensures Read(r, handles, EncodeAll(ds)) == Outcome(Complete, AfterDisplays(r, handles, ds), [])
    decreases |ds|
  {
    hide Encode, Fits, DataOf, DupsOf;
    if ds != [] {
      ReadDisplay(r, handles, ds[0], EncodeAll(ds[1..]));
      ReadDisplays(AfterDisplay(r, handles, ds[0]), handles, ds[1..]);
    }
  }

  ghost function FencesBefore(handles: seq<bool>, ds: seq<DisplayResult>, n: nat): nat
    requires n <= |ds|
  {
    if n == 0 then 0 else FencesBefore(handles, ds, n - 1) + DupsOf(ds[n - 1], handles)
  }

  lemma {:induction false} FencesBeforeTail(handles: seq<bool>, ds: seq<DisplayResult>, n: nat)
    requires 0 < n <= |ds|
    ensures FencesBefore(handles, ds, n) == DupsOf(ds[0], handles) + FencesBefore(handles, ds[1..], n - 1)
  {
    hide DupsOf;
    if n > 1 {
      FencesBeforeTail(handles, ds, n - 1);
    } else {
      assert FencesBefore(handles, ds, 1) == FencesBefore(handles, ds, 0) + DupsOf(ds[0], handles);
    }
  }

  ghost predicate Mentions(ds: seq<DisplayResult>, display: nat) {
    exists i :: 0 <= i < |ds| && ds[i].display == display
  }

  lemma MentionsTail(ds: seq<DisplayResult>, display: nat)
    requires ds != []
    ensures Mentions(ds, display) <==> ds[0].display == display || Mentions(ds[1..], display)
  {
    if i :| 0 <= i < |ds| && ds[i].display == display {
      assert i > 0 ==> ds[1..][i - 1].display == display;
    }
    if i :| 0 <= i < |ds[1..]| && ds[1..][i].display == display {
      assert ds[i + 1].display == display;
    }
  }

  /** The errors of all displays, in the order in which they were written. */
  ghost function AllFailures(ds: seq<DisplayResult>): seq<CommandError> {
    if ds == [] then [] else ds[0].failures + AllFailures(ds[1..])
  }

  /** Which displays there are data of afterwards, and that the others are as they were. */
  lemma {:induction false} DisplaysAfter(r: Results, handles: seq<bool>, ds: seq<DisplayResult>, display: nat)
    ensures var after := AfterDisplays(r, handles, ds);
            && after.errors == r.errors + AllFailures(ds) && after.closed == r.closed
            && (display in after.displays <==> display in r.displays || Mentions(ds, display))
            && (display in r.displays && !Mentions(ds, display) ==> after.displays[display] == r.displays[display])
    decreases |ds|
  {
    hide DataOf, DupsOf, Mentions;
    if ds != [] {
      MentionsTail(ds, display);
      DisplaysAfter(AfterDisplay(r, handles, ds[0]), handles, ds[1..], display);
    } else {
      NothingMentioned(display);
    }
  }

  lemma NothingMentioned(display: nat)
    ensures !Mentions([], display)
  {
  }

  lemma FirstIsMentionedOnce(ds: seq<DisplayResult>)
    requires DifferentDisplays(ds) && ds != []
    ensures !Mentions(ds[1..], ds[0].display) && DifferentDisplays(ds[1..])
  {
  }

  lemma {:induction false} DataAfter(r: Results, handles: seq<bool>, ds: seq<DisplayResult>, i: nat)
    requires DifferentDisplays(ds) && i < |ds|
    ensures var after := AfterDisplays(r, handles, ds);
            ds[i].display in after.displays
            && after.displays[ds[i].display] == DataOf(ds[i], handles, r.nextFence + FencesBefore(handles, ds, i))
    decreases |ds|
  {
    hide DataOf, DupsOf, Mentions, DifferentDisplays;
    FirstIsMentionedOnce(ds);
    var next := AfterDisplay(r, handles, ds[0]);
    if i == 0 {
      DisplaysAfter(next, handles, ds[1..], ds[0].display);
    } else {
      DataAfter(next, handles, ds[1..], i - 1);
      FencesBeforeTail(handles, ds, i);
    }
  }

  /** Reading the commands that a composer writes for its displays gives back exactly what it said about each
      of them, with the errors in their order, and closes nothing. */
  lemma RoundTrip(handles: seq<bool>, ds: seq<DisplayResult>)
    requires DifferentDisplays(ds) && forall i :: 0 <= i < |ds| ==> Fits(ds[i])
    ensures var o := Read(NOTHING, handles, EncodeAll(ds));
            && o.ending == Complete && ReportsSuccess(o) && o.results.errors == AllFailures(ds) && o.results.closed == []
            && (forall d :: d in o.results.displays <==> Mentions(ds, d))
            && forall i :: 0 <= i < |ds| ==>
                 ds[i].display in o.results.displays
                 && o.results.displays[ds[i].display] == DataOf(ds[i], handles, FencesBefore(handles, ds, i))
  {
    hide Read, DataOf, Fits, Mentions, AfterDisplays, FencesBefore, EncodeAll, DifferentDisplays;
    ReadDisplays(NOTHING, handles, ds);
    forall d: nat
      ensures d in AfterDisplays(NOTHING, handles, ds).displays <==> Mentions(ds, d)
    {
      DisplaysAfter(NOTHING, handles, ds, d);
    }
    DisplaysAfter(NOTHING, handles, ds, 0);
    forall i | 0 <= i < |ds|
      ensures ds[i].display in AfterDisplays(NOTHING, handles, ds).displays
      ensures AfterDisplays(NOTHING, handles, ds).displays[ds[i].display] == DataOf(ds[i], handles, FencesBefore(handles, ds, i))
    {
      DataAfter(NOTHING, handles, ds, i);
    }
  }
}
