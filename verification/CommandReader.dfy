/** `CommandReader`: reads the commands word by word, keeps their results until they are taken, and owns the
    fence descriptors among them. */
module CommandReader {
  import opened BitSets
  import opened Options
  import opened CommandStream
  import opened FenceLedger

  class CommandReader {
    /** The queue of `CommandReaderBase`: the words, how many have been read, the end of the command that is
        being read, and which of the handles that came with them can be duplicated. */
    var words: seq<nat>
    var dataRead: nat
    var commandEnd: nat
    var handles: seq<bool>

    var errors: seq<CommandError>
    var returnData: map<nat, ReturnData>
    /** The display that `mCurrentReturnData` points to. */
    var current: Option<nat>

    /** The next descriptor that duplicating a handle yields: each is a new one. */
    var nextFence: nat
    ghost var closed: seq<int>
    ghost var handedOut: set<int>
    ghost var place: map<int, Place>

    ghost function State(): Results
      reads this`errors, this`returnData, this`current, this`nextFence, this`closed
    {
      Results(errors, returnData, current, nextFence, closed)
    }

    /** Every descriptor is held, handed out, or closed, and in one place only; layers stay paired with what
        belongs to them. */
    ghost predicate Valid()
      reads this`errors, this`returnData, this`current, this`nextFence, this`closed, this`handedOut, this`place
    {
      && State().Valid() && Conserved(returnData, nextFence, closed, handedOut, place)
      && forall d :: d in returnData ==> returnData[d].Paired()
    }

    constructor ()
      ensures Valid() && returnData == map[] && errors == [] && nextFence == 0 && closed == [] && handedOut == {}
    {
      words, dataRead, commandEnd, handles := [], 0, 0, [];
      errors, returnData, current, nextFence := [], map[], None, 0;
      closed, handedOut, place := [], {}, map[];
    }

    // ----- CommandReaderBase -----

    ghost predicate InCommand(length: nat)
      reads this`words, this`dataRead, this`commandEnd
    {
      dataRead + length == commandEnd <= |words|
    }

    /** `beginCommand`: reads a header; if the command is longer than the queue, the header is put back. */
    method BeginCommand() returns (ok: bool, opcode: Opcode, length: nat)
      requires dataRead < |words|
      modifies this`dataRead, this`commandEnd
      ensures opcode == OpcodeOf(words[old(dataRead)] / HALF) && length == words[old(dataRead)] % HALF
      ensures ok <==> old(dataRead) + 1 + length <= |words|
      ensures if ok then dataRead == old(dataRead) + 1 && InCommand(length) else dataRead == old(dataRead)
    {
      var header := words[dataRead];
      dataRead := dataRead + 1;
      opcode, length := OpcodeOf(header / HALF), header % HALF;
      if dataRead + length > |words| {
        dataRead := dataRead - 1;
        return false, opcode, length;
      }
      commandEnd := dataRead + length;
      return true, opcode, length;
    }

    method EndCommand()
      modifies this`dataRead, this`commandEnd
      ensures dataRead == old(commandEnd)
    {
      dataRead := commandEnd;
      commandEnd := 0;
    }

    method ReadWord() returns (w: nat)
      requires dataRead < |words|
      modifies this`dataRead
      ensures w == words[old(dataRead)] && dataRead == old(dataRead) + 1
    {
      w := words[dataRead];
      dataRead := dataRead + 1;
    }

    method ReadWide() returns (n: nat)
      requires dataRead + 1 < |words|
      modifies this`dataRead
      ensures n == Wide(words[old(dataRead)], words[old(dataRead) + 1]) && dataRead == old(dataRead) + 2
    {
      var low := ReadWord();
      var high := ReadWord();
      n := Wide(low, high);
    }

    /** `readFence`: a new descriptor, or -1. */
    method ReadFence() returns (fence: int)
      requires dataRead < |words|
      modifies this`dataRead, this`nextFence
      ensures dataRead == old(dataRead) + 1
      ensures fence == FenceOf(handles, words[old(dataRead)], old(nextFence))
      ensures nextFence == old(nextFence) + if HasFence(handles, words[old(dataRead)]) then 1 else 0
    {
      var index := ReadWord();
      fence := NO_FENCE;
      if index < |handles| && handles[index] {
        fence := nextFence;
        nextFence := nextFence + 1;
      }
    }

    // ----- the commands -----

    ghost function Args(length: nat): seq<nat>
      requires InCommand(length)
      reads this`words, this`dataRead, this`commandEnd
    {
      words[dataRead..dataRead + length]
    }

    /** An accepted command is read to its last word; a rejected one is not read at all. */
    twostate predicate Consumed(accepted: bool, length: nat)
      reads this`dataRead
    {
      dataRead == old(dataRead) + if accepted then length else 0
    }

    method ParseSelectDisplay(length: nat) returns (accepted: bool)
      requires State().Valid() && InCommand(length)
      modifies this`dataRead, this`returnData, this`current
      ensures Consumed(accepted, length)
      ensures var next := Execute(old(State()), handles, SelectDisplay, old(Args(length)));
              accepted == next.Some? && State() == if accepted then next.value else old(State())
    {
      if length != 2 {
        return false;
      }
      var display := ReadWide();
      if display !in returnData {
        returnData := returnData[display := NO_DATA];
      }
      current := Some(display);
      return true;
    }

    method ParseSetError(length: nat) returns (accepted: bool)
      requires State().Valid() && InCommand(length)
      modifies this`dataRead, this`errors
      ensures Consumed(accepted, length)
      ensures var next := Execute(old(State()), handles, SetError, old(Args(length)));
              accepted == next.Some? && State() == if accepted then next.value else old(State())
    {
      if length != 2 {
        return false;
      }
      var location := ReadWord();
      var error := ReadWord();
      errors := errors + [CommandError(location, Signed(error))];
      return true;
    }

    method ParseSetPresentOrValidateDisplayResult(length: nat) returns (accepted: bool)
      requires State().Valid() && InCommand(length)
      modifies this`dataRead, this`returnData
      ensures Consumed(accepted, length)
      ensures var next := Execute(old(State()), handles, SetPresentOrValidateDisplayResult, old(Args(length)));
              accepted == next.Some? && State() == if accepted then next.value else old(State())
    {
      if length != 1 || current == None {
        return false;
      }
      var state := ReadWord();
      returnData := returnData[current.value := returnData[current.value].(presentOrValidateState := state)];
      return true;
    }

    method ParseSetPresentFence(length: nat) returns (accepted: bool)
      requires State().Valid() && InCommand(length)
      modifies this`dataRead, this`returnData, this`nextFence, this`closed
      ensures Consumed(accepted, length)
      ensures var next := Execute(old(State()), handles, SetPresentFence, old(Args(length)));
              accepted == next.Some? && State() == if accepted then next.value else old(State())
    {
      if length != 1 || current == None {
        return false;
      }
      var data := returnData[current.value];
      if data.presentFence >= 0 {
        closed := closed + [data.presentFence];
      }
      var fence := ReadFence();
      returnData := returnData[current.value := data.(presentFence := fence)];
      return true;
    }

    /** The loop that reads a layer and one more word, `count` times. */
    method ReadTriples(count: nat) returns (layers: seq<nat>, thirds: seq<nat>)
      requires dataRead + 3 * count <= |words|
      modifies this`dataRead
      ensures dataRead == old(dataRead) + 3 * count
      ensures var args := words[old(dataRead)..old(dataRead) + 3 * count]; layers == Layers(args) && thirds == Thirds(args)
    {
      hide Wide;
      layers, thirds := [], [];
      ghost var args := words[dataRead..dataRead + 3 * count];
      assert |args| / 3 == count;
      var left := count;
      while left > 0
        invariant 0 <= left <= count && dataRead == old(dataRead) + 3 * (count - left)
        invariant |layers| == |thirds| == count - left
        invariant forall i :: 0 <= i < count - left ==> layers[i] == Layers(args)[i] && thirds[i] == Thirds(args)[i]
      {
        ghost var i := count - left;
        assert args[3 * i] == words[dataRead] && args[3 * i + 1] == words[dataRead + 1] && args[3 * i + 2] == words[dataRead + 2];
        var layer := ReadWide();
        var third := ReadWord();
        layers, thirds := layers + [layer], thirds + [third];
        left := left - 1;
      }
    }

    method ParseSetChangedCompositionTypes(length: nat) returns (accepted: bool)
      requires State().Valid() && InCommand(length)
      modifies this`dataRead, this`returnData
      ensures Consumed(accepted, length)
      ensures var next := Execute(old(State()), handles, SetChangedCompositionTypes, old(Args(length)));
              accepted == next.Some? && State() == if accepted then next.value else old(State())
    {
      hide Layers, Thirds;
      if length % 3 != 0 || current == None {
        return false;
      }
      var layers, types := ReadTriples(length / 3);
      var data := returnData[current.value];
      returnData := returnData[current.value := data.(changedLayers := data.changedLayers + layers,
                                                      compositionTypes := data.compositionTypes + AllSigned(types))];
      return true;
    }

    method ParseSetDisplayRequests(length: nat) returns (accepted: bool)
      requires State().Valid() && InCommand(length)
      modifies this`dataRead, this`returnData
      ensures Consumed(accepted, length)
      ensures var next := Execute(old(State()), handles, SetDisplayRequests, old(Args(length)));
              accepted == next.Some? && State() == if accepted then next.value else old(State())
    {
      hide Layers, Thirds;
      if length % 3 != 1 || current == None {
        return false;
      }
      ghost var args := Args(length);
      var requests := ReadWord();
      assert args[1..] == words[dataRead..dataRead + 3 * ((length - 1) / 3)];
      var layers, masks := ReadTriples((length - 1) / 3);
      var data := returnData[current.value];
      returnData := returnData[current.value := data.(displayRequests := requests,
                                                      requestedLayers := data.requestedLayers + layers,
                                                      requestMasks := data.requestMasks + masks)];
      return true;
    }

    /** The loop that reads a layer and a fence, `count` times. */
    method ReadFences(count: nat) returns (layers: seq<nat>, fences: seq<int>)
      requires dataRead + 3 * count <= |words|
      modifies this`dataRead, this`nextFence
      ensures dataRead == old(dataRead) + 3 * count
      ensures var args := words[old(dataRead)..old(dataRead) + 3 * count];
              layers == Layers(args) && fences == Fences(handles, args, old(nextFence))
              && nextFence == old(nextFence) + FencesIn(handles, args, count)
    {
      hide Wide, FenceOf, Layers, Fences, FencesIn, HasFence;
      layers, fences := [], [];
      ghost var args := words[dataRead..dataRead + 3 * count];
      assert args[..3 * count] == args;
      TriplesOf(handles, args, nextFence, count, 0);
      var left := count;
      while left > 0
        invariant 0 <= left <= count && dataRead == old(dataRead) + 3 * (count - left)
        invariant |layers| == |fences| == count - left
        invariant nextFence == old(nextFence) + FencesIn(handles, args, count - left)
        invariant forall i :: 0 <= i < count - left ==> layers[i] == Layers(args)[i] && fences[i] == Fences(handles, args, old(nextFence))[i]
      {
        ghost var i := count - left;
        TriplesOf(handles, args, old(nextFence), count, i);
        assert args[3 * i] == words[dataRead] && args[3 * i + 1] == words[dataRead + 1] && args[3 * i + 2] == words[dataRead + 2];
        var layer := ReadWide();
        var fence := ReadFence();
        layers, fences := layers + [layer], fences + [fence];
        left := left - 1;
      }
    }

    method ParseSetReleaseFences(length: nat) returns (accepted: bool)
      requires State().Valid() && InCommand(length)
      modifies this`dataRead, this`returnData, this`nextFence
      ensures Consumed(accepted, length)
      ensures var next := Execute(old(State()), handles, SetReleaseFences, old(Args(length)));
              accepted == next.Some? && State() == if accepted then next.value else old(State())
    {
      hide Layers, Fences, FencesIn;
      if length % 3 != 0 || current == None {
        return false;
      }
      var layers, fences := ReadFences(length / 3);
      var data := returnData[current.value];
      returnData := returnData[current.value := data.(releasedLayers := data.releasedLayers + layers,
                                                      releaseFences := data.releaseFences + fences)];
      return true;
    }

    /** The switch in `parse`. */
    method ParseCommand(opcode: Opcode, length: nat) returns (accepted: bool)
      requires State().Valid() && InCommand(length)
      modifies this`dataRead, this`errors, this`returnData, this`current, this`nextFence, this`closed
      ensures Consumed(accepted, length)
      ensures var next := Execute(old(State()), handles, opcode, old(Args(length)));
              accepted == next.Some? && State() == if accepted then next.value else old(State())
    {
      hide Layers, Thirds, Fences, FencesIn, AllSigned, HasFence, FenceOf;
      match opcode {
        case SelectDisplay => accepted := ParseSelectDisplay(length);
        case SetError => accepted := ParseSetError(length);
        case SetChangedCompositionTypes => accepted := ParseSetChangedCompositionTypes(length);
        case SetDisplayRequests => accepted := ParseSetDisplayRequests(length);
        case SetPresentFence => accepted := ParseSetPresentFence(length);
        case SetReleaseFences => accepted := ParseSetReleaseFences(length);
        case SetPresentOrValidateDisplayResult => accepted := ParseSetPresentOrValidateDisplayResult(length);
        case Unknown(_) => accepted := false;
      }
    }

    /** One command with its header and its end. */
    method ParseOne() returns (ending: Ending)
      requires Valid() && dataRead < |words|
      modifies this`dataRead, this`commandEnd, this`errors, this`returnData, this`current, this`nextFence, this`closed, this`place
      ensures Valid() && dataRead <= |words|
      ensures Read(old(State()), handles, words[old(dataRead)..])
              == if ending == Complete then Read(State(), handles, words[dataRead..]) else Outcome(ending, State(), words[dataRead..])
      ensures dataRead >= old(dataRead) && (ending == Complete ==> dataRead > old(dataRead))
    {
      hide Read, Execute, Conserved, Results.Valid;
      ghost var rest, before := words[dataRead..], State();
      ReadOne(before, handles, rest);
      var ok, opcode, length := BeginCommand();
      if !ok {
        return Overlong;
      }
      ghost var args := Args(length);
      assert rest[1..1 + length] == args && rest[1 + length..] == words[dataRead + length..];
      var accepted := ParseCommand(opcode, length);
      EndCommand();
      if !accepted {
        return Rejected;
      }
      KeepsValid(before, handles, opcode, args);
      PairsKept(before, handles, opcode, args);
      place := ExecuteConserves(before, handles, opcode, args, handedOut, place);
      return Complete;
    }

    /** `parse`: what is kept from before is given up, and then the results are those of the whole queue.  It
        reports success exactly when it has read every word. */
    method Parse() returns (success: bool)
      requires Valid() && dataRead <= |words|
      modifies this`dataRead, this`commandEnd, this`errors, this`returnData, this`current, this`nextFence, this`closed, this`place
      ensures Valid() && dataRead <= |words|
      ensures exists start :: IsReset(start, old(nextFence)) && ReadResult(start, old(dataRead), success)
    {
      hide Read, Execute, Conserved;
      ResetData();
      ghost var start, from := State(), dataRead;
      while dataRead < |words|
        invariant Valid() && from <= dataRead <= |words| && start.Valid()
        invariant Read(start, handles, words[from..]) == Read(State(), handles, words[dataRead..])
        decreases |words| - dataRead
      {
        var ending := ParseOne();
        if ending != Complete {
          success := dataRead == |words|;
          assert success == (words[dataRead..] == []);
          assert ReadResult(start, from, success);
          return;
        }
      }
      NothingLeft(State(), handles, words, dataRead);
      success := true;
      assert ReadResult(start, from, success);
    }

    /** The results and the report are those of reading the words from `from` on. */
    ghost predicate ReadResult(start: Results, from: nat, success: bool)
      reads this`words, this`handles, this`dataRead, this`errors, this`returnData, this`current, this`nextFence, this`closed
    {
      && start.Valid() && from <= dataRead <= |words|
      && var o := Read(start, handles, words[from..]);
      && State() == o.results && o.rest == words[dataRead..] && success == ReportsSuccess(o)
    }

    /** `resetData`, which is also the destructor: every fence still held is closed. */
    method ResetData()
      requires Valid()
      modifies this`errors, this`returnData, this`current, this`closed, this`place
      ensures Valid() && IsReset(State(), nextFence)
      ensures forall f :: f in place && place[f] != Closed ==> place[f] == HandedOut
      ensures old(closed) <= closed && handedOut == old(handedOut)
    {
      hide Conserved;
      errors := [];
      ghost var held := returnData;
      var rest := returnData.Keys;
      assert (map d | d in held && d in rest :: held[d]) == held;
      while rest != {}
        invariant rest <= returnData.Keys && old(closed) <= closed && held.Keys == rest
        invariant errors == [] && returnData == old(returnData)
        invariant forall d :: d in rest ==> held[d] == returnData[d]
        invariant Conserved(held, nextFence, closed, handedOut, place)
        decreases |rest|
      {
        var d := FirstMarked(rest);
        held := CloseDisplay(d, held);
        rest := rest - {d};
      }
      AllPlaced(held, nextFence, closed, handedOut, place);
      returnData := map[];
      current := None;
      assert held == map[];
    }

    /** Closes the fences of one display; `held` are the displays whose fences are still open. */
    method CloseDisplay(d: nat, ghost held: map<nat, ReturnData>) returns (ghost left: map<nat, ReturnData>)
      requires d in returnData && d in held && held[d] == returnData[d]
      requires Conserved(held, nextFence, closed, handedOut, place)
      modifies this`closed, this`place
      ensures left == held - {d} && Conserved(left, nextFence, closed, handedOut, place) && old(closed) <= closed
    {
      hide Conserved;
      var data := returnData[d];
      left := held;
      if data.presentFence >= 0 {
        ClosePresent(left, nextFence, closed, handedOut, place, d);
        left := left[d := left[d].(presentFence := NO_FENCE)];
        closed, place := closed + [data.presentFence], place[data.presentFence := Closed];
      }
      for i := 0 to |data.releaseFences|
        invariant left.Keys == held.Keys && (forall e :: e in held && e != d ==> left[e] == held[e])
        invariant left[d].presentFence < 0 && |left[d].releaseFences| == |data.releaseFences| && old(closed) <= closed
        invariant forall k :: 0 <= k < i ==> left[d].releaseFences[k] < 0
        invariant forall k :: i <= k < |data.releaseFences| ==> left[d].releaseFences[k] == data.releaseFences[k]
        invariant Conserved(left, nextFence, closed, handedOut, place)
      {
        var fence := data.releaseFences[i];
        if fence >= 0 {
          CloseRelease(left, nextFence, closed, handedOut, place, d, i);
          left := left[d := left[d].(releaseFences := left[d].releaseFences[i := NO_FENCE])];
          closed, place := closed + [fence], place[fence := Closed];
        }
      }
      WithoutDisplay(left, nextFence, closed, handedOut, place, d);
      left := left - {d};
      assert left == held - {d};
    }

    // ----- taking results -----

    /** `takeErrors`. */
    method TakeErrors() returns (taken: seq<CommandError>)
      requires Valid()
      modifies this`errors
      ensures Valid() && taken == old(errors) && errors == []
    {
      hide Conserved;
      taken := errors;
      errors := [];
    }

    /** `hasChanges`: the two counts are also those of the layers that go with them. */
    method HasChanges(display: nat) returns (changes: bool, types: nat, masks: nat)
      requires Valid()
      ensures types == (if display in returnData then |returnData[display].changedLayers| else 0)
      ensures masks == (if display in returnData then |returnData[display].requestedLayers| else 0)
      ensures changes <==> types + masks > 0
    {
      hide Conserved;
      if display !in returnData {
        return false, 0, 0;
      }
      var data := returnData[display];
      types, masks := |data.compositionTypes|, |data.requestMasks|;
      assert data.Paired();
      changes := !(data.compositionTypes == [] && data.requestMasks == []);
    }

    /** `takeChangedCompositionTypes`. */
    method TakeChangedCompositionTypes(display: nat) returns (layers: seq<nat>, types: seq<int>)
      requires Valid()
      modifies this`returnData
      ensures Valid() && |layers| == |types|
      ensures layers == (if display in old(returnData) then old(returnData)[display].changedLayers else [])
      ensures types == (if display in old(returnData) then old(returnData)[display].compositionTypes else [])
      ensures returnData == if display in old(returnData)
                            then old(returnData)[display := old(returnData)[display].(changedLayers := [], compositionTypes := [])]
                            else old(returnData)
    {
      hide Conserved;
      if display !in returnData {
        return [], [];
      }
      var data := returnData[display];
      assert data.Paired();
      layers, types := data.changedLayers, data.compositionTypes;
      ghost var before := returnData;
      returnData := returnData[display := data.(changedLayers := [], compositionTypes := [])];
      SameFences(before, nextFence, closed, handedOut, place, returnData);
    }

    /** `takeDisplayRequests`. */
    method TakeDisplayRequests(display: nat) returns (mask: nat, layers: seq<nat>, masks: seq<nat>)
      requires Valid()
      modifies this`returnData
      ensures Valid() && |layers| == |masks|
      ensures mask == (if display in old(returnData) then old(returnData)[display].displayRequests else 0)
      ensures layers == (if display in old(returnData) then old(returnData)[display].requestedLayers else [])
      ensures masks == (if display in old(returnData) then old(returnData)[display].requestMasks else [])
      ensures returnData == if display in old(returnData)
                            then old(returnData)[display := old(returnData)[display].(requestedLayers := [], requestMasks := [])]
                            else old(returnData)
    {
      hide Conserved;
      if display !in returnData {
        return 0, [], [];
      }
      var data := returnData[display];
      assert data.Paired();
      mask, layers, masks := data.displayRequests, data.requestedLayers, data.requestMasks;
      ghost var before := returnData;
      returnData := returnData[display := data.(requestedLayers := [], requestMasks := [])];
      SameFences(before, nextFence, closed, handedOut, place, returnData);
    }

    /** `takeReleaseFences`: the fences now belong to the caller. */
    method TakeReleaseFences(display: nat) returns (layers: seq<nat>, fences: seq<int>)
      requires Valid()
      modifies this`returnData, this`handedOut, this`place
      ensures Valid() && |layers| == |fences|
      ensures layers == (if display in old(returnData) then old(returnData)[display].releasedLayers else [])
      ensures fences == (if display in old(returnData) then old(returnData)[display].releaseFences else [])
      ensures handedOut == old(handedOut) + Real(fences) && Real(fences) !! old(handedOut)
      ensures returnData == if display in old(returnData)
                            then old(returnData)[display := old(returnData)[display].(releasedLayers := [], releaseFences := [])]
                            else old(returnData)
    {
      hide Conserved;
      if display !in returnData {
        assert Real([]) == {};
        return [], [];
      }
      var data := returnData[display];
      assert data.Paired();
      layers, fences := data.releasedLayers, data.releaseFences;
      HandReleases(returnData, nextFence, closed, handedOut, place, display);
      ghost var emptied := returnData[display := data.(releaseFences := [])];
      handedOut := handedOut + Real(fences);
      place := map f | f in place :: if f in Real(fences) then HandedOut else place[f];
      returnData := returnData[display := data.(releasedLayers := [], releaseFences := [])];
      SameFences(emptied, nextFence, closed, handedOut, place, returnData);
    }

    /** `takePresentFence`. */
    method TakePresentFence(display: nat) returns (fence: int)
      requires Valid()
      modifies this`returnData, this`handedOut, this`place
      ensures Valid()
      ensures fence == if display in old(returnData) then old(returnData)[display].presentFence else NO_FENCE
      ensures handedOut == old(handedOut) + Real([fence]) && Real([fence]) !! old(handedOut)
      ensures returnData == if display in old(returnData)
                            then old(returnData)[display := old(returnData)[display].(presentFence := NO_FENCE)]
                            else old(returnData)
    {
      hide Conserved;
      if display !in returnData {
        assert Real([NO_FENCE]) == {};
        return NO_FENCE;
      }
      var data := returnData[display];
      fence := data.presentFence;
      if fence >= 0 {
        assert Real([fence]) == {fence};
        HandPresent(returnData, nextFence, closed, handedOut, place, display);
        handedOut, place := handedOut + {fence}, place[fence := HandedOut];
      } else {
        assert Real([fence]) == {};
        NothingThere(returnData, nextFence, closed, handedOut, place, display);
      }
      returnData := returnData[display := data.(presentFence := NO_FENCE)];
    }

    /** `takePresentOrValidateStage`: for an unknown display the result is -1 as an unsigned word. */
    method TakePresentOrValidateStage(display: nat) returns (state: nat)
      ensures state == if display in returnData then returnData[display].presentOrValidateState else WORD - 1
    {
      if display !in returnData {
        return WORD - 1;
      }
      state := returnData[display].presentOrValidateState;
    }
  }

  lemma TriplesOf(handles: seq<bool>, args: seq<nat>, nextFence: nat, count: nat, i: nat)
    requires |args| == 3 * count
    ensures |Layers(args)| == count && |Fences(handles, args, nextFence)| == count && FencesIn(handles, args, 0) == 0
    ensures i < count ==>
              && Layers(args)[i] == Wide(args[3 * i], args[3 * i + 1])
              && Fences(handles, args, nextFence)[i] == FenceOf(handles, args[3 * i + 2], nextFence + FencesIn(handles, args, i))
              && FencesIn(handles, args, i + 1) == FencesIn(handles, args, i) + if HasFence(handles, args[3 * i + 2]) then 1 else 0
  {
    hide Wide, Fences, FencesIn, FenceOf, HasFence;
    assert |args| / 3 == count;
    FenceAt(handles, args, nextFence, count, i);
    FencesStep(handles, args, i);
  }

  lemma FencesStep(handles: seq<bool>, args: seq<nat>, i: nat)
    ensures FencesIn(handles, args, 0) == 0
    ensures 3 * i + 2 < |args| ==>
              FencesIn(handles, args, i + 1) == FencesIn(handles, args, i) + if HasFence(handles, args[3 * i + 2]) then 1 else 0
  {
    hide HasFence;
    assert 3 * (i + 1) - 1 == 3 * i + 2;
  }

  lemma FenceAt(handles: seq<bool>, args: seq<nat>, nextFence: nat, count: nat, i: nat)
    requires |args| == 3 * count
    ensures |Fences(handles, args, nextFence)| == count
    ensures i < count ==> Fences(handles, args, nextFence)[i] == FenceOf(handles, args[3 * i + 2], nextFence + FencesIn(handles, args, i))
  {
    hide FencesIn, FenceOf;
    assert |args| / 3 == count;
  }

  /** Reading goes on with the first command. */
  lemma ReadOne(r: Results, handles: seq<bool>, words: seq<nat>)
    requires r.Valid() && words != []
    ensures var length, opcode := words[0] % HALF, OpcodeOf(words[0] / HALF);
            Read(r, handles, words) ==
              if length > |words| - 1 then Outcome(Overlong, r, words)
              else
                var next := Execute(r, handles, opcode, words[1..1 + length]);
                if next.None? then Outcome(Rejected, r, words[1 + length..])
                else (KeepsValid(r, handles, opcode, words[1..1 + length]); Read(next.value, handles, words[1 + length..]))
  {
    hide Execute, Results.Valid;
  }

  /** Nothing is kept; the descriptors go on from `nextFence`. */
  ghost predicate IsReset(r: Results, nextFence: nat) {
    r.errors == [] && r.displays == map[] && r.current == None && r.nextFence == nextFence
  }

  lemma NothingLeft(r: Results, handles: seq<bool>, words: seq<nat>, n: nat)
    requires r.Valid() && n == |words|
    ensures Read(r, handles, words[n..]) == Outcome(Complete, r, []) && words[n..] == []
  {
  }

  lemma PairsKept(r: Results, handles: seq<bool>, opcode: Opcode, args: seq<nat>)
    requires r.Valid() && Execute(r, handles, opcode, args).Some? && forall d :: d in r.displays ==> r.displays[d].Paired()
    ensures var next := Execute(r, handles, opcode, args).value; forall d :: d in next.displays ==> next.displays[d].Paired()
  {
  }

  /** With nothing held every descriptor is closed or handed out. */
  lemma AllPlaced(displays: map<nat, ReturnData>, nextFence: nat, closed: seq<int>, handed: set<int>, place: map<int, Place>)
    requires Conserved(displays, nextFence, closed, handed, place) && displays == map[]
    ensures forall f :: f in place && place[f] != Closed ==> place[f] == HandedOut
  {
    forall f | f in place
      ensures place[f] == Closed || place[f] == HandedOut
    {
      assert IsAt(displays, closed, handed, f, place[f]);
    }
  }
}
