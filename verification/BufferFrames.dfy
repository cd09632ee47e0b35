/** The frame numbers of a buffer queue: which were taken, which were dropped, and which are still queued. */
module BufferFrames {
  import opened BitSets
  import opened BufferSlots

  datatype Frames = Frames(queue: seq<Item>, counter: nat, taken: seq<nat>, dropped: seq<nat>)

  /** What happens to the queue: a frame comes, the first one is taken, the items become stale, or the whole
      queue is forgotten. */
  datatype Step = Put(slot: nat, droppable: bool) | Take | Stale | Forget

  function Numbers(queue: seq<Item>): (r: seq<nat>)
    ensures |r| == |queue| && forall i :: 0 <= i < |queue| ==> r[i] == queue[i].frameNumber
  {
    seq(|queue|, i requires 0 <= i < |queue| => queue[i].frameNumber)
  }

  function After(f: Frames, step: Step): Frames {
    match step
    case Put(slot, droppable) =>
      f.(queue := Enqueue(f.queue, Item(slot, f.counter + 1, droppable, false)), counter := f.counter + 1,
         dropped := f.dropped + if Replaces(f.queue) then [f.queue[|f.queue| - 1].frameNumber] else [])
    case Take =>
      if f.queue == [] then f
      else f.(queue := f.queue[1..], taken := f.taken + [f.queue[0].frameNumber])
    case Stale => f.(queue := MarkStale(f.queue))
    case Forget => f.(queue := [], dropped := f.dropped + Numbers(f.queue))
  }

  function AfterAll(f: Frames, steps: seq<Step>): Frames
    decreases |steps|
  {
    if steps == [] then f else AfterAll(After(f, steps[0]), steps[1..])
  }

  /** Frames are taken in order, the queue continues that order, and each frame number given out so far was
      taken once, dropped once, or is in the queue once. */
  ghost predicate Accounted(f: Frames) {
    && Increasing(f.taken + Numbers(f.queue))
    && (forall n :: n in f.taken + Numbers(f.queue) ==> n <= f.counter)
    && multiset(f.taken) + multiset(f.dropped) + multiset(Numbers(f.queue)) == multiset(OneTo(f.counter))
  }

  ghost function OneTo(n: nat): seq<nat> {
    seq(n, i requires 0 <= i < n => i + 1)
  }

  lemma OneToNext(n: nat)
    ensures OneTo(n + 1) == OneTo(n) + [n + 1]
  {
  }

  lemma NoFrames()
    ensures Accounted(Frames([], 0, [], []))
  {
    assert OneTo(0) == [];
  }

  /** The numbers that stay in the queue and the one that is dropped. */
  lemma EnqueueNumbers(queue: seq<Item>, item: Item) returns (kept: seq<nat>, gone: seq<nat>)
    ensures gone == if Replaces(queue) then [queue[|queue| - 1].frameNumber] else []
    ensures Numbers(queue) == kept + gone && Numbers(Enqueue(queue, item)) == kept + [item.frameNumber]
  {
    kept := Numbers(if Replaces(queue) then queue[..|queue| - 1] else queue);
    gone := if Replaces(queue) then [queue[|queue| - 1].frameNumber] else [];
  }

  lemma PutAccounts(f: Frames, slot: nat, droppable: bool)
    requires Accounted(f)
    ensures Accounted(After(f, Put(slot, droppable)))
  {
    hide Increasing, OneTo, Enqueue, Replaces;
    var n := f.counter + 1;
    OneToNext(f.counter);
    var kept, gone := EnqueueNumbers(f.queue, Item(slot, n, droppable, false));
    Extended(f.taken, kept, gone, n);
  }

  lemma TakeAccounts(f: Frames)
    requires Accounted(f)
    ensures Accounted(After(f, Take))
  {
    if f.queue != [] {
      var first, rest := [f.queue[0].frameNumber], Numbers(f.queue[1..]);
      assert Numbers(f.queue) == first + rest;
      assert f.taken + Numbers(f.queue) == (f.taken + first) + rest;
    }
  }

  lemma ForgetAccounts(f: Frames)
    requires Accounted(f)
    ensures Accounted(After(f, Forget))
  {
    var all := f.taken + Numbers(f.queue);
    assert f.taken == all[..|f.taken|] && Numbers([]) == [] && f.taken + [] == f.taken;
    forall i | 0 <= i < |f.taken|
      ensures f.taken[i] == all[i] && f.taken[i] in all
    {
    }
  }

  lemma Extended(taken: seq<nat>, kept: seq<nat>, gone: seq<nat>, n: nat)
    requires Increasing(taken + (kept + gone)) && forall x :: x in taken + (kept + gone) ==> x < n
    ensures Increasing(taken + (kept + [n])) && forall x :: x in taken + (kept + [n]) ==> x <= n
  {
    var before := taken + kept;
    assert taken + (kept + gone) == before + gone && taken + (kept + [n]) == before + [n];
    forall i | 0 <= i < |before|
      ensures before[i] < n && before[i] in before + gone
    {
      assert (before + gone)[i] == before[i] && (before + gone)[i] in before + gone;
    }
    forall i, j | 0 <= i < j < |before|
      ensures before[i] < before[j]
    {
      assert (before + gone)[i] < (before + gone)[j];
    }
  }

  lemma StepAccounts(f: Frames, step: Step)
    requires Accounted(f)
    ensures Accounted(After(f, step))
  {
    match step
    case Put(slot, droppable) => PutAccounts(f, slot, droppable);
    case Take => TakeAccounts(f);
    case Stale => assert Numbers(MarkStale(f.queue)) == Numbers(f.queue);
    case Forget => ForgetAccounts(f);
  }

  /** Over every run the consumer gets the frames in the order of their numbers, and none is lost or given
      out twice. */
  lemma {:induction false} FramesAreConserved(f: Frames, steps: seq<Step>)
    requires Accounted(f)
    ensures Accounted(AfterAll(f, steps))
    decreases |steps|
  {
    if steps != [] {
      StepAccounts(f, steps[0]);
      FramesAreConserved(After(f, steps[0]), steps[1..]);
    }
  }
}
