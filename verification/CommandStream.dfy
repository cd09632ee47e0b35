/** The word stream in which a composer returns its results, and what reading it means.

    `CommandReaderBase`, `CommandWriterBase` and the opcode numbers are not part of this model's source tree.
    A command is one header word, opcode in the upper and length in the lower half, and as many words as the
    length says; a 64-bit value is two words, lower half first; a fence is the index of a handle, and reading
    it duplicates the descriptor of that handle, if it has one. */
module CommandStream {
  import opened Options

  const WORD: nat := 0x1_0000_0000
  const HALF: nat := 0x1_0000

  datatype Opcode =
    | SelectDisplay | SetError | SetChangedCompositionTypes | SetDisplayRequests | SetPresentFence
    | SetReleaseFences | SetPresentOrValidateDisplayResult | Unknown(number: nat)

  function OpcodeOf(number: nat): Opcode {
    if number == 0 then SelectDisplay
    else if number == 0x100 then SetError
    else if number == 0x101 then SetChangedCompositionTypes
    else if number == 0x102 then SetDisplayRequests
    else if number == 0x103 then SetPresentFence
    else if number == 0x104 then SetReleaseFences
    else if number == 0x105 then SetPresentOrValidateDisplayResult
    else Unknown(number)
  }

  function NumberOf(opcode: Opcode): nat {
    match opcode
    case SelectDisplay => 0
    case SetError => 0x100
    case SetChangedCompositionTypes => 0x101
    case SetDisplayRequests => 0x102
    case SetPresentFence => 0x103
    case SetReleaseFences => 0x104
    case SetPresentOrValidateDisplayResult => 0x105
    case Unknown(number) => number
  }

  /** `readSigned`. */
  function Signed(word: nat): int {
    if word >= WORD / 2 then word - WORD else word
  }

  /** `read64`. */
  function Wide(low: nat, high: nat): nat {
    high * WORD + low
  }

  const NO_FENCE: int := -1

  /** `CommandReader::ReturnData`. */
  datatype ReturnData = ReturnData(
    displayRequests: nat,
    changedLayers: seq<nat>, compositionTypes: seq<int>,
    requestedLayers: seq<nat>, requestMasks: seq<nat>,
    presentFence: int,
    releasedLayers: seq<nat>, releaseFences: seq<int>,
    presentOrValidateState: nat)
  {
    /** Layers come with their types, masks and fences. */
    predicate Paired() {
      |changedLayers| == |compositionTypes| && |requestedLayers| == |requestMasks| && |releasedLayers| == |releaseFences|
    }
  }

  const NO_DATA: ReturnData := ReturnData(0, [], [], [], [], NO_FENCE, [], [], 0)

  datatype CommandError = CommandError(location: nat, error: int)

  /** What has been read so far.  Descriptors are numbered in the order in which they were duplicated;
      `closed` lists those closed on the way. */
  datatype Results = Results(
    errors: seq<CommandError>, displays: map<nat, ReturnData>, current: Option<nat>, nextFence: nat, closed: seq<int>)
  {
    predicate Valid() {
      current.Some? ==> current.value in displays
    }

    function Data(): ReturnData
      requires Valid() && current.Some?
    {
      displays[current.value]
    }

    function With(data: ReturnData): Results
      requires current.Some?
    {
      this.(displays := displays[current.value := data])
    }
  }

  /** The handle with this index can be duplicated. */
  predicate HasFence(handles: seq<bool>, word: nat) {
    word < |handles| && handles[word]
  }

  function FenceOf(handles: seq<bool>, word: nat, nextFence: nat): int {
    if HasFence(handles, word) then nextFence else NO_FENCE
  }

  /** How many fences the third words of the first `n` triples yield. */
  function FencesIn(handles: seq<bool>, args: seq<nat>, n: nat): nat
    requires 3 * n <= |args|
  {
    if n == 0 then 0
    else FencesIn(handles, args, n - 1) + if HasFence(handles, args[3 * n - 1]) then 1 else 0
  }

  function Layers(args: seq<nat>): seq<nat> {
    seq(|args| / 3, i requires 0 <= i < |args| / 3 => Wide(args[3 * i], args[3 * i + 1]))
  }

  function Thirds(args: seq<nat>): seq<nat> {
    seq(|args| / 3, i requires 0 <= i < |args| / 3 => args[3 * i + 2])
  }

  function AllSigned(words: seq<nat>): seq<int> {
    seq(|words|, i requires 0 <= i < |words| => Signed(words[i]))
  }

  function Fences(handles: seq<bool>, args: seq<nat>, nextFence: nat): seq<int> {
    seq(|args| / 3, i requires 0 <= i < |args| / 3 =>
      FenceOf(handles, args[3 * i + 2], nextFence + FencesIn(handles, args, i)))
  }

  /** One command; `None` when it is rejected, and then nothing has changed. */
  function Execute(r: Results, handles: seq<bool>, opcode: Opcode, args: seq<nat>): Option<Results>
    requires r.Valid()
  {
    match opcode
    case SelectDisplay =>
      if |args| != 2 then None
      else
        var display := Wide(args[0], args[1]);
        Some(r.(displays := if display in r.displays then r.displays else r.displays[display := NO_DATA], current := Some(display)))
    case SetError =>
      if |args| != 2 then None else Some(r.(errors := r.errors + [CommandError(args[0], Signed(args[1]))]))
    case SetChangedCompositionTypes =>
      if |args| % 3 != 0 || r.current == None then None
      else Some(r.With(r.Data().(changedLayers := r.Data().changedLayers + Layers(args),
                                 compositionTypes := r.Data().compositionTypes + AllSigned(Thirds(args)))))
    case SetDisplayRequests =>
      if |args| % 3 != 1 || r.current == None then None
      else Some(r.With(r.Data().(displayRequests := args[0],
                                 requestedLayers := r.Data().requestedLayers + Layers(args[1..]),
                                 requestMasks := r.Data().requestMasks + Thirds(args[1..]))))
    case SetPresentFence =>
      if |args| != 1 || r.current == None then None
      else
        var fence := FenceOf(handles, args[0], r.nextFence);
        Some(r.With(r.Data().(presentFence := fence))
              .(nextFence := r.nextFence + (if fence >= 0 then 1 else 0),
                closed := r.closed + if r.Data().presentFence >= 0 then [r.Data().presentFence] else []))
    case SetReleaseFences =>
      if |args| % 3 != 0 || r.current == None then None
      else Some(r.With(r.Data().(releasedLayers := r.Data().releasedLayers + Layers(args),
                                 releaseFences := r.Data().releaseFences + Fences(handles, args, r.nextFence)))
                 .(nextFence := r.nextFence + FencesIn(handles, args, |args| / 3)))
    case SetPresentOrValidateDisplayResult =>
      if |args| != 1 || r.current == None then None
      else Some(r.With(r.Data().(presentOrValidateState := args[0])))
    case Unknown(_) => None
  }

  datatype Ending = Complete | Overlong | Rejected

  /** How reading ends, what was read, and which words remain. */
  datatype Outcome = Outcome(ending: Ending, results: Results, rest: seq<nat>)

  function Read(r: Results, handles: seq<bool>, words: seq<nat>): Outcome
    requires r.Valid()
    decreases |words|
  {
    if words == [] then Outcome(Complete, r, [])
    else
      var length := words[0] % HALF;
      if length > |words| - 1 then Outcome(Overlong, r, words)
      else
        var rest := words[1 + length..];
        match Execute(r, handles, OpcodeOf(words[0] / HALF), words[1..1 + length])
        case None => Outcome(Rejected, r, rest)
        case Some(next) => (KeepsValid(r, handles, OpcodeOf(words[0] / HALF), words[1..1 + length]); Read(next, handles, rest))
  }

  lemma KeepsValid(r: Results, handles: seq<bool>, opcode: Opcode, args: seq<nat>)
    requires r.Valid()
    ensures var next := Execute(r, handles, opcode, args); next.Some? ==> next.value.Valid()
  {
  }

  /** `parse` reports success exactly when no word is left. */
  predicate ReportsSuccess(o: Outcome) {
    o.rest == []
  }

  /** The words cut into commands by their headers, and what is left when the last command is too long. */
  ghost function Split(words: seq<nat>): (seq<seq<nat>>, seq<nat>)
    decreases |words|
  {
    if words == [] then ([], [])
    else
      var length := words[0] % HALF;
      if length > |words| - 1 then ([], words)
      else
        var (commands, left) := Split(words[1 + length..]);
        ([words[..1 + length]] + commands, left)
  }

  ghost function OpcodeIn(command: seq<nat>): Opcode {
    if command == [] then Unknown(0) else OpcodeOf(command[0] / HALF)
  }

  /** A command is rejected for its opcode or its length, or because no display has been selected. */
  ghost predicate IsRejected(opcode: Opcode, length: nat, selected: bool) {
    match opcode
    case SelectDisplay => length != 2
    case SetError => length != 2
    case SetChangedCompositionTypes => length % 3 != 0 || !selected
    case SetDisplayRequests => length % 3 != 1 || !selected
    case SetPresentFence => length != 1 || !selected
    case SetReleaseFences => length % 3 != 0 || !selected
    case SetPresentOrValidateDisplayResult => length != 1 || !selected
    case Unknown(_) => true
  }

  ghost predicate Selects(commands: seq<seq<nat>>, n: nat)
    requires n <= |commands|
  {
    exists j :: 0 <= j < n && OpcodeIn(commands[j]) == SelectDisplay
  }

  /** The command at `k` does not fit, given whether a display was selected before them all. */
  ghost predicate RejectedAt(commands: seq<seq<nat>>, selected: bool, k: nat)
    requires k < |commands|
  {
    commands[k] == [] || IsRejected(OpcodeIn(commands[k]), |commands[k]| - 1, selected || Selects(commands, k))
  }

  /** None of the first `n` commands is rejected. */
  ghost predicate NoneRejected(commands: seq<seq<nat>>, selected: bool, n: nat)
    requires n <= |commands|
  {
    forall k :: 0 <= k < n ==> !RejectedAt(commands, selected, k)
  }

  lemma ExecuteIff(r: Results, handles: seq<bool>, opcode: Opcode, args: seq<nat>)
    requires r.Valid()
    ensures Execute(r, handles, opcode, args).None? <==> IsRejected(opcode, |args|, r.current.Some?)
    ensures var next := Execute(r, handles, opcode, args);
            next.Some? ==> next.value.Valid() && (next.value.current.Some? <==> r.current.Some? || opcode == SelectDisplay)
  {
  }

  lemma RejectedAfter(first: seq<nat>, rest: seq<seq<nat>>, selected: bool, k: nat)
    requires k < |rest|
    ensures RejectedAt([first] + rest, selected, k + 1) <==> RejectedAt(rest, selected || OpcodeIn(first) == SelectDisplay, k)
  {
    hide IsRejected, OpcodeIn;
    var commands := [first] + rest;
    if Selects(rest, k) {
      var j :| 0 <= j < k && OpcodeIn(rest[j]) == SelectDisplay;
      assert OpcodeIn(commands[j + 1]) == SelectDisplay;
    }
    if OpcodeIn(first) == SelectDisplay {
      assert OpcodeIn(commands[0]) == SelectDisplay;
    }
    if Selects(commands, k + 1) {
      var j :| 0 <= j < k + 1 && OpcodeIn(commands[j]) == SelectDisplay;
      assert j > 0 ==> OpcodeIn(rest[j - 1]) == SelectDisplay;
    }
  }

  lemma NoneRejectedAfter(first: seq<nat>, rest: seq<seq<nat>>, selected: bool, n: nat)
    requires n <= |rest| && !RejectedAt([first] + rest, selected, 0)
    ensures NoneRejected([first] + rest, selected, n + 1) <==> NoneRejected(rest, selected || OpcodeIn(first) == SelectDisplay, n)
  {
    hide RejectedAt, OpcodeIn;
    var commands, after := [first] + rest, selected || OpcodeIn(first) == SelectDisplay;
    forall k | 0 <= k < n
      ensures RejectedAt(commands, selected, k + 1) <==> RejectedAt(rest, after, k)
    {
      RejectedAfter(first, rest, selected, k);
    }
    if NoneRejected(commands, selected, n + 1) {
      forall k | 0 <= k < n
        ensures !RejectedAt(rest, after, k)
      {
        assert !RejectedAt(commands, selected, k + 1);
      }
    }
    if NoneRejected(rest, after, n) {
      forall k | 0 <= k < n + 1
        ensures !RejectedAt(commands, selected, k)
      {
        assert k > 0 ==> !RejectedAt(rest, after, k - 1);
      }
    }
  }

  /** Success is reported exactly if the words make up whole commands and none of them but the last one is
      rejected. */
  lemma {:induction false} SuccessIff(r: Results, handles: seq<bool>, words: seq<nat>)
    requires r.Valid()
    ensures var (commands, left) := Split(words);
            && (ReportsSuccess(Read(r, handles, words)) <==>
                  left == [] && (commands != [] ==> NoneRejected(commands, r.current.Some?, |commands| - 1)))
            && (Read(r, handles, words).ending == Complete <==> left == [] && NoneRejected(commands, r.current.Some?, |commands|))
    decreases |words|
  {
    if words != [] && words[0] % HALF <= |words| - 1 {
      hide IsRejected, Execute, RejectedAt, NoneRejected;
      var length := words[0] % HALF;
      var rest, opcode, args := words[1 + length..], OpcodeOf(words[0] / HALF), words[1..1 + length];
      var first, commands := words[..1 + length], Split(rest).0;
      ExecuteIff(r, handles, opcode, args);
      FirstRejected(first, commands, r.current.Some?);
      var next := Execute(r, handles, opcode, args);
      if next.Some? {
        SuccessIff(next.value, handles, rest);
        NoneRejectedAfter(first, commands, r.current.Some?, |commands|);
        if commands != [] {
          NoneRejectedAfter(first, commands, r.current.Some?, |commands| - 1);
        }
      }
      OnlyRest(rest);
    }
  }

  /** Only no words make no commands. */
  lemma OnlyRest(words: seq<nat>)
    ensures Split(words).0 == [] && Split(words).1 == [] <==> words == []
  {
  }

  lemma FirstRejected(first: seq<nat>, rest: seq<seq<nat>>, selected: bool)
    requires first != []
    ensures RejectedAt([first] + rest, selected, 0) <==> IsRejected(OpcodeIn(first), |first| - 1, selected)
    ensures NoneRejected([first] + rest, selected, 0)
    ensures forall n :: 1 <= n <= |rest| + 1 && NoneRejected([first] + rest, selected, n) ==> !RejectedAt([first] + rest, selected, 0)
  {
    hide IsRejected, OpcodeIn;
  }

  const NOTHING: Results := Results([], map[], None, 0, [])

  /** The exception does occur: a single command that nobody knows counts as a success. */
  lemma UnknownCommandIsNotReported()
    ensures var o := Read(NOTHING, [], [0x999 * HALF]); o.ending == Rejected && ReportsSuccess(o)
  {
    var words := [0x999 * HALF];
    assert words[0] % HALF == 0 && words[0] / HALF == 0x999;
    assert words[1..] == [];
  }

  /** Layers and what belongs to them stay paired, whatever is read. */
  lemma {:induction false} ReadKeepsPairs(r: Results, handles: seq<bool>, words: seq<nat>)
    requires r.Valid() && forall d :: d in r.displays ==> r.displays[d].Paired()
    ensures forall d :: d in Read(r, handles, words).results.displays ==> Read(r, handles, words).results.displays[d].Paired()
    decreases |words|
  {
    if words != [] && words[0] % HALF <= |words| - 1 {
      var length := words[0] % HALF;
      var opcode, args := OpcodeOf(words[0] / HALF), words[1..1 + length];
      var next := Execute(r, handles, opcode, args);
      if next.Some? {
        KeepsValid(r, handles, opcode, args);
        ReadKeepsPairs(next.value, handles, words[1 + length..]);
      }
    }
  }

  // ----- results that come in several commands -----

  lemma LayersConcat(a: seq<nat>, b: seq<nat>)
    requires |a| % 3 == 0 && |b| % 3 == 0
    ensures Layers(a + b) == Layers(a) + Layers(b) && Thirds(a + b) == Thirds(a) + Thirds(b)
    ensures AllSigned(Thirds(a + b)) == AllSigned(Thirds(a)) + AllSigned(Thirds(b))
  {
    hide Wide;
    var n, m := |a| / 3, |b| / 3;
    assert |a + b| / 3 == n + m;
    forall i | 0 <= i < n + m
      ensures Layers(a + b)[i] == (Layers(a) + Layers(b))[i] && Thirds(a + b)[i] == (Thirds(a) + Thirds(b))[i]
    {
      assert i >= n ==> 3 * i - |a| == 3 * (i - n);
    }
  }

  lemma {:induction false} FencesInConcat(handles: seq<bool>, a: seq<nat>, b: seq<nat>, n: nat)
    requires |a| % 3 == 0 && 3 * n <= |a + b|
    ensures FencesIn(handles, a + b, n)
            == if 3 * n <= |a| then FencesIn(handles, a, n) else FencesIn(handles, a, |a| / 3) + FencesIn(handles, b, n - |a| / 3)
  {
    if n > 0 {
      FencesInConcat(handles, a, b, n - 1);
    }
  }

  lemma FencesConcat(handles: seq<bool>, a: seq<nat>, b: seq<nat>, nextFence: nat)
    requires |a| % 3 == 0 && |b| % 3 == 0
    ensures Fences(handles, a + b, nextFence) == Fences(handles, a, nextFence) + Fences(handles, b, nextFence + FencesIn(handles, a, |a| / 3))
    ensures FencesIn(handles, a + b, |a + b| / 3) == FencesIn(handles, a, |a| / 3) + FencesIn(handles, b, |b| / 3)
  {
    hide FencesIn, FenceOf;
    var n, m := |a| / 3, |b| / 3;
    assert |a + b| / 3 == n + m;
    FencesInConcat(handles, a, b, n + m);
    FencesInConcat(handles, a, [], n);
    assert m == 0 ==> FencesIn(handles, b, 0) == 0 by { NoFences(handles, b); }
    forall i | 0 <= i < n + m
      ensures Fences(handles, a + b, nextFence)[i]
              == (Fences(handles, a, nextFence) + Fences(handles, b, nextFence + FencesIn(handles, a, n)))[i]
    {
      FencesInConcat(handles, a, b, i);
      NoFences(handles, b);
      assert i >= n ==> 3 * i + 2 - |a| == 3 * (i - n) + 2;
    }
  }

  lemma NoFences(handles: seq<bool>, args: seq<nat>)
    ensures FencesIn(handles, args, 0) == 0
  {
  }

  /** Layers may come in several commands: two commands for a list mean the same as one with both parts. */
  lemma ListsAppend(r: Results, handles: seq<bool>, opcode: Opcode, a: seq<nat>, b: seq<nat>)
    requires r.Valid() && (opcode == SetChangedCompositionTypes || opcode == SetReleaseFences)
    requires |a| % 3 == 0 && |b| % 3 == 0 && r.current.Some?
    ensures Execute(r, handles, opcode, a).Some? && Execute(r, handles, opcode, a).value.Valid()
    ensures Execute(Execute(r, handles, opcode, a).value, handles, opcode, b) == Execute(r, handles, opcode, a + b)
  {
    hide Execute;
    if opcode == SetReleaseFences {
      ReleasesAppend(r, handles, a, b);
    } else {
      ChangesAppend(r, handles, a, b);
    }
  }

  lemma ChangesAppend(r: Results, handles: seq<bool>, a: seq<nat>, b: seq<nat>)
    requires r.Valid() && |a| % 3 == 0 && |b| % 3 == 0 && r.current.Some?
    ensures Execute(r, handles, SetChangedCompositionTypes, a).Some? && Execute(r, handles, SetChangedCompositionTypes, a).value.Valid()
    ensures Execute(Execute(r, handles, SetChangedCompositionTypes, a).value, handles, SetChangedCompositionTypes, b)
            == Execute(r, handles, SetChangedCompositionTypes, a + b)
  {
    hide Layers, Thirds, AllSigned;
    LayersConcat(a, b);
    var first := Execute(r, handles, SetChangedCompositionTypes, a).value;
    var both := Execute(first, handles, SetChangedCompositionTypes, b).value;
    var all := Execute(r, handles, SetChangedCompositionTypes, a + b).value;
    assert both.Data() == all.Data();
    assert both.displays == all.displays;
  }

  lemma ReleasesAppend(r: Results, handles: seq<bool>, a: seq<nat>, b: seq<nat>)
    requires r.Valid() && |a| % 3 == 0 && |b| % 3 == 0 && r.current.Some?
    ensures Execute(r, handles, SetReleaseFences, a).Some? && Execute(r, handles, SetReleaseFences, a).value.Valid()
    ensures Execute(Execute(r, handles, SetReleaseFences, a).value, handles, SetReleaseFences, b)
            == Execute(r, handles, SetReleaseFences, a + b)
  {
    hide Layers, Thirds, Fences, FencesIn;
    LayersConcat(a, b);
    FencesConcat(handles, a, b, r.nextFence);
    var first := Execute(r, handles, SetReleaseFences, a).value;
    var both := Execute(first, handles, SetReleaseFences, b).value;
    var all := Execute(r, handles, SetReleaseFences, a + b).value;
    assert both.Data() == all.Data();
    assert both.displays == all.displays;
  }

  /** The same for requests, of which the last mask counts. */
  lemma RequestsAppend(r: Results, handles: seq<bool>, m: nat, n: nat, a: seq<nat>, b: seq<nat>)
    requires r.Valid() && |a| % 3 == 0 && |b| % 3 == 0 && r.current.Some?
    ensures Execute(r, handles, SetDisplayRequests, [m] + a).Some? && Execute(r, handles, SetDisplayRequests, [m] + a).value.Valid()
    ensures Execute(Execute(r, handles, SetDisplayRequests, [m] + a).value, handles, SetDisplayRequests, [n] + b)
            == Execute(r, handles, SetDisplayRequests, [n] + (a + b))
  {
    hide Layers, Thirds;
    assert ([m] + a)[1..] == a && ([n] + b)[1..] == b && ([n] + (a + b))[1..] == a + b;
    assert |[m] + a| % 3 == 1 && |[n] + b| % 3 == 1 && |[n] + (a + b)| % 3 == 1;
    LayersConcat(a, b);
    var first := Execute(r, handles, SetDisplayRequests, [m] + a).value;
    var both := Execute(first, handles, SetDisplayRequests, [n] + b).value;
    var all := Execute(r, handles, SetDisplayRequests, [n] + (a + b)).value;
    assert both.Data() == all.Data();
    assert both.displays == all.displays;
  }

  /** A present fence is a descriptor of its own if its handle has one. */
  lemma PresentFenceIsNew(r: Results, handles: seq<bool>, word: nat)
    requires r.Valid() && r.current.Some?
    ensures Execute(r, handles, SetPresentFence, [word]).Some?
    ensures var next := Execute(r, handles, SetPresentFence, [word]).value; var has := word < |handles| && handles[word];
            && next.Valid() && next.current == r.current
            && next.Data().presentFence == (if has then r.nextFence else -1) && next.nextFence == r.nextFence + (if has then 1 else 0)
            && next.closed == if r.Data().presentFence >= 0 then r.closed + [r.Data().presentFence] else r.closed
  {
  }

  /** A display that is selected again goes on with what it has. */
  lemma SelectingAgainKeeps(r: Results, handles: seq<bool>, low: nat, high: nat)
    requires r.Valid()
    ensures Execute(r, handles, SelectDisplay, [low, high]).Some?
    ensures var next, display := Execute(r, handles, SelectDisplay, [low, high]).value, low + high * 0x1_0000_0000;
            && next.current == Some(display) && display in next.displays
            && (display in r.displays ==> next.displays == r.displays)
            && (display !in r.displays ==> next.displays == r.displays[display := NO_DATA])
            && next.errors == r.errors && next.nextFence == r.nextFence && next.closed == r.closed
  {
  }
}
