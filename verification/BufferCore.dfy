/** The state of a buffer queue as a value, and what its operations do to it. */
module BufferCore {
  import opened BitSets
  import opened Options
  import opened BufferSlots
  import opened BufferFrames

  datatype Core = Core(slots: seq<Slot>, lists: Lists, frames: Frames, sharedMode: bool, sharedSlot: Option<nat>, abandoned: bool)
  {
    /** What every operation keeps: the four lists partition the slots, each slot is in the state its list asks
        for, the queue is in order and counted in the slots, every frame number is accounted for, and an
        abandoned queue has given up all its buffers. */
    ghost predicate Fit() {
      && Placed(slots, lists)
      && InOrder(frames.queue, frames.counter) && CountsMatch(slots, frames.queue, frames.counter) && Accounted(frames)
      && (sharedSlot.Some? ==> sharedMode && SharedIs(sharedSlot.value))
      && (abandoned ==> lists.active == {} && frames.queue == [])
    }

    ghost predicate SharedIs(s: nat) {
      s in lists.active && s < |slots| && slots[s].shared
    }

    /** Slot `s` was taken out of its list, which leaves `rest`, or it is the shared slot. */
    ghost predicate Takes(rest: Lists, s: nat) {
      && Fit() && !abandoned && s < NUM_BUFFER_SLOTS && rest.WellFormed()
      && (forall x :: 0 <= x < NUM_BUFFER_SLOTS && x != s ==> lists.SameFor(x, rest))
      && s !in rest.freeSlots && s !in rest.freeBuffers && s !in rest.unused
      && rest.active == lists.active && rest.allocating == lists.allocating
      && (s in lists.active <==> sharedSlot == Some(s))
    }

    /** One slot and its place in the lists change. */
    ghost function With(s: nat, slot: Slot, to: Lists): Core
      requires s < |slots|
    {
      this.(slots := slots[s := slot], lists := to)
    }
  }

  lemma Basics(c: Core)
    requires c.Fit()
    ensures |c.slots| == NUM_BUFFER_SLOTS && c.lists.WellFormed()
    ensures forall s :: s in c.lists.active || s in c.lists.allocating ==> s < NUM_BUFFER_SLOTS
    ensures c.sharedSlot.Some? ==> c.sharedMode && c.SharedIs(c.sharedSlot.value)
    ensures c.abandoned ==> c.lists.active == {} && c.frames.queue == []
  {
  }

  lemma LastFits(c: Core)
    requires c.Fit() && c.frames.queue != []
    ensures c.frames.queue[|c.frames.queue| - 1].slot < |c.slots|
  {
  }

  lemma FreeBuffersDiffer(c: Core)
    requires c.Fit()
    ensures NoDuplicates(c.lists.freeBuffers)
  {
  }

  /** What the invariant says of one slot. */
  lemma SlotFits(c: Core, s: nat)
    requires c.Fit() && s < NUM_BUFFER_SLOTS
    ensures |c.slots| == NUM_BUFFER_SLOTS && c.lists.WellFormed() && c.lists.Allow(s, c.slots[s])
    ensures c.slots[s].queued == QueuedItems(c.frames.queue, s) && c.slots[s].frameNumber <= c.frames.counter
    ensures c.slots[s].dequeued > 0 ==> s in c.lists.active
  {
    CountOf(c.slots, c.frames.queue, c.frames.counter, s);
  }

  lemma ListedFits(c: Core, s: nat)
    requires c.Fit() && (s in c.lists.freeSlots || s in c.lists.freeBuffers || s in c.lists.active || s in c.lists.unused)
    ensures s < NUM_BUFFER_SLOTS == |c.slots| && c.lists.Allow(s, c.slots[s]) && c.slots[s].frameNumber <= c.frames.counter
  {
    Where(c.slots, c.lists, s);
    SlotFits(c, s);
  }

  /** One slot changes its state and its list.  Unless it is queued elsewhere than before, all else stays. */
  lemma OneSlotFits(c: Core, s: nat, slot: Slot, to: Lists)
    requires c.Fit() && s < NUM_BUFFER_SLOTS && |c.slots| == NUM_BUFFER_SLOTS
    requires to.WellFormed() && (forall x :: 0 <= x < NUM_BUFFER_SLOTS && x != s ==> c.lists.SameFor(x, to))
    requires slot.queued == c.slots[s].queued && slot.frameNumber <= c.frames.counter
    requires c.sharedSlot == Some(s) ==> slot.shared && s in to.active
    requires c.abandoned ==> s !in to.active
    ensures c.With(s, slot, to).Fit() <==> to.Allow(s, slot)
  {
    hide InOrder, Accounted, Fits;
    var d := c.With(s, slot, to);
    CountsAfter(c.slots, d.slots, c.frames.queue, c.frames.counter, s);
    if to.Allow(s, slot) {
      Move(c.slots, c.lists, d.slots, to, s);
      assert c.sharedSlot.Some? && c.sharedSlot.value != s ==> c.lists.SameFor(c.sharedSlot.value, to);
      assert forall x :: x in to.active && x != s ==> x in c.lists.active by {
        forall x | x in to.active && x != s
          ensures x in c.lists.active
        {
          assert c.lists.SameFor(x, to);
        }
      }
    } else {
      assert !d.lists.Allow(s, d.slots[s]);
    }
  }

  // ----- taking a slot out of its list -----

  lemma SharedTakes(c: Core)
    requires c.Fit() && !c.abandoned && c.sharedSlot.Some?
    ensures c.Takes(c.lists, c.sharedSlot.value)
  {
    hide Placed;
    ListedFits(c, c.sharedSlot.value);
    Basics(c);
  }

  lemma FreeBufferTakes(c: Core)
    requires c.Fit() && !c.abandoned && c.lists.freeBuffers != []
    ensures c.Takes(c.lists.(freeBuffers := c.lists.freeBuffers[1..]), c.lists.freeBuffers[0])
    ensures forall s :: s in c.lists.freeBuffers[1..] <==> s in c.lists.freeBuffers && s != c.lists.freeBuffers[0]
  {
    hide Core.Fit;
    assert c.lists.freeBuffers[0] in c.lists.freeBuffers;
    ListedFits(c, c.lists.freeBuffers[0]);
    Basics(c);
    WithoutFirst(c.lists.freeBuffers);
  }

  lemma FreeSlotTakes(c: Core, s: nat)
    requires c.Fit() && !c.abandoned && s in c.lists.freeSlots
    ensures c.Takes(c.lists.(freeSlots := c.lists.freeSlots - {s}), s)
  {
    hide Core.Fit;
    ListedFits(c, s);
    Basics(c);
  }

  /** What the slot that was taken out is like. */
  lemma WhatTakes(c: Core, rest: Lists, s: nat)
    requires c.Takes(rest, s)
    ensures s < NUM_BUFFER_SLOTS == |c.slots| && c.slots[s].frameNumber <= c.frames.counter
    ensures s in c.lists.freeBuffers ==> c.slots[s].buffer.Some?
    ensures s in c.lists.freeBuffers || s in c.lists.freeSlots ==> s !in c.lists.active
    ensures s in c.lists.freeBuffers || s in c.lists.active ==> s !in c.lists.freeSlots
    ensures s !in c.lists.active ==> c.slots[s].IsFree() && !c.slots[s].shared
    ensures c.sharedSlot.Some? ==> c.sharedMode
  {
    hide Core.Fit;
    SlotFits(c, s);
    Basics(c);
  }

  // ----- the operations -----

  /** An unused slot becomes a free one. */
  lemma UsedFits(c: Core)
    requires c.Fit() && c.lists.unused != []
    ensures var n := |c.lists.unused| - 1;
            c.(lists := c.lists.(unused := c.lists.unused[..n], freeSlots := c.lists.freeSlots + {c.lists.unused[n]})).Fit()
  {
    hide Core.Fit, Placed;
    var n := |c.lists.unused| - 1;
    var s := c.lists.unused[n];
    assert s in c.lists.unused;
    ListedFits(c, s);
    SlotFits(c, s);
    WithoutLast(c.lists.unused);
    Basics(c);
    var to := c.lists.(unused := c.lists.unused[..n], freeSlots := c.lists.freeSlots + {s});
    OneSlotFits(c, s, c.slots[s], to);
    assert c.slots[s := c.slots[s]] == c.slots;
  }

  /** A slot that nobody holds is given up. */
  lemma GivenUpFits(c: Core, s: nat, to: Lists)
    requires c.Fit() && (s in c.lists.freeSlots || s in c.lists.freeBuffers)
    requires to == if s in c.lists.freeSlots then c.lists.(freeSlots := c.lists.freeSlots - {s}, unused := c.lists.unused + [s])
                   else c.lists.(freeBuffers := to.freeBuffers, unused := c.lists.unused + [s])
    requires s in c.lists.freeBuffers && s !in c.lists.freeSlots ==>
               NoDuplicates(to.freeBuffers) && forall x :: x in to.freeBuffers <==> x in c.lists.freeBuffers && x != s
    ensures s < |c.slots| && c.With(s, c.slots[s].Clear(), to).Fit()
  {
    hide Core.Fit, Placed;
    ListedFits(c, s);
    SlotFits(c, s);
    WithOneMore(c.lists.unused, s);
    Basics(c);
    assert forall i :: 0 <= i < |to.freeBuffers| ==> to.freeBuffers[i] in to.freeBuffers && to.freeBuffers[i] in c.lists.freeBuffers;
    assert forall i :: 0 <= i < |c.lists.freeBuffers| ==> c.lists.freeBuffers[i] < NUM_BUFFER_SLOTS;
    OneSlotFits(c, s, c.slots[s].Clear(), to);
  }

  /** The slot goes to the producer, with its buffer or to have one allocated. */
  lemma HandedFits(c: Core, rest: Lists, s: nat, wanted: Attributes)
    requires c.Takes(rest, s) && s < |c.slots|
    requires s in c.lists.active ==> !c.slots[s].NeedsAllocation(wanted)
    ensures var shares := c.sharedMode && c.sharedSlot == None;
            c.With(s, HandedSlot(c.slots[s], wanted, shares), HandedLists(rest, s, c.slots[s].NeedsAllocation(wanted)))
             .(sharedSlot := if shares then Some(s) else c.sharedSlot).Fit()
  {
    hide Core.Fit, Placed;
    SlotFits(c, s);
    Basics(c);
    var shares := c.sharedMode && c.sharedSlot == None;
    var to := HandedLists(rest, s, c.slots[s].NeedsAllocation(wanted));
    forall x | 0 <= x < NUM_BUFFER_SLOTS && x != s
      ensures c.lists.SameFor(x, to)
    {
      assert c.lists.SameFor(x, rest);
    }
    OneSlotFits(c, s, HandedSlot(c.slots[s], wanted, shares), to);
    SharingFits(c.With(s, HandedSlot(c.slots[s], wanted, shares), to), s, shares);
  }

  function HandedLists(rest: Lists, s: nat, needsAllocation: bool): Lists {
    rest.(active := rest.active + {s}, allocating := rest.allocating + if needsAllocation then {s} else {})
  }

  lemma SharingFits(c: Core, s: nat, shares: bool)
    requires c.Fit() && (shares ==> c.sharedMode && c.SharedIs(s))
    ensures c.(sharedSlot := if shares then Some(s) else c.sharedSlot).Fit()
  {
  }

  /** A free buffer that was taken out is given up. */
  lemma BufferGivenUpFits(c: Core, rest: Lists, s: nat)
    requires c.Takes(rest, s) && s in c.lists.freeBuffers
    ensures s < |c.slots| && c.With(s, c.slots[s].Clear(), rest.(freeSlots := rest.freeSlots + {s})).Fit()
  {
    hide Core.Fit, Placed;
    SlotFits(c, s);
    Basics(c);
    var to := rest.(freeSlots := rest.freeSlots + {s});
    forall x | 0 <= x < NUM_BUFFER_SLOTS && x != s
      ensures c.lists.SameFor(x, to)
    {
      assert c.lists.SameFor(x, rest);
    }
    OneSlotFits(c, s, c.slots[s].Clear(), to);
  }

  /** A buffer is attached to a slot that was taken out. */
  lemma AttachedFits(c: Core, rest: Lists, s: nat, buffer: Buffer)
    requires c.Takes(rest, s)
    ensures s < |c.slots| && c.With(s, AttachedSlot(c.slots[s], buffer), rest.(active := rest.active + {s})).Fit()
  {
    hide Core.Fit, Placed;
    SlotFits(c, s);
    Basics(c);
    var to := rest.(active := rest.active + {s});
    forall x | 0 <= x < NUM_BUFFER_SLOTS && x != s
      ensures c.lists.SameFor(x, to)
    {
      assert c.lists.SameFor(x, rest);
    }
    OneSlotFits(c, s, AttachedSlot(c.slots[s], buffer), to);
  }

  function AttachedSlot(slot: Slot, buffer: Buffer): Slot {
    slot.Dequeue().(buffer := Some(buffer), requested := true, needsReallocation := false)
  }

  /** A slot of which the invariant says nothing but its list changes, as when it is requested or shared. */
  lemma ChangedFits(c: Core, s: nat, slot: Slot)
    requires c.Fit() && s in c.lists.active && s < |c.slots|
    requires slot.buffer == c.slots[s].buffer && slot.queued == c.slots[s].queued && slot.frameNumber == c.slots[s].frameNumber
    requires slot.shared || (!c.slots[s].shared && slot.OutstandingOnce())
    ensures c.With(s, slot, c.lists).Fit()
  {
    hide Core.Fit, Placed;
    ListedFits(c, s);
    SlotFits(c, s);
    Basics(c);
    OneSlotFits(c, s, slot, c.lists);
  }

  /** A slot is given back by one of its owners. */
  lemma GivenBackFits(c: Core, s: nat, slot: Slot)
    requires c.Fit() && s in c.lists.active && s < |c.slots| && slot.queued == c.slots[s].queued
    requires slot.buffer == c.slots[s].buffer && slot.shared == c.slots[s].shared && slot.frameNumber == c.slots[s].frameNumber
    requires slot.shared || slot.IsFree()
    ensures var back := GivenBack(slot, c.sharedMode);
            c.With(s, back, GivenBackLists(c.lists, s, back)).Fit() <==> back.shared || slot.buffer.Some?
  {
    hide Core.Fit, Placed;
    ListedFits(c, s);
    SlotFits(c, s);
    Basics(c);
    WithOneMore(c.lists.freeBuffers, s);
    var back := GivenBack(slot, c.sharedMode);
    OneSlotFits(c, s, back, GivenBackLists(c.lists, s, back));
  }

  function GivenBackLists(lists: Lists, s: nat, back: Slot): Lists {
    if back.shared then lists else lists.(active := lists.active - {s}, freeBuffers := lists.freeBuffers + [s])
  }

  /** A slot leaves the active ones and is cleared: right exactly if it has no item in the queue. */
  lemma DetachedFits(c: Core, s: nat)
    requires c.Fit() && s in c.lists.active && s < |c.slots| && c.sharedSlot != Some(s)
    ensures c.With(s, c.slots[s].Clear(), c.lists.(active := c.lists.active - {s}, freeSlots := c.lists.freeSlots + {s})).Fit()
            <==> c.slots[s].queued == 0
  {
    ListedFits(c, s);
    SlotFits(c, s);
    var to := c.lists.(active := c.lists.active - {s}, freeSlots := c.lists.freeSlots + {s});
    if c.slots[s].queued == 0 {
      OneSlotFits(c, s, c.slots[s].Clear(), to);
    } else {
      assert c.With(s, c.slots[s].Clear(), to).slots[s].queued != QueuedItems(c.frames.queue, s);
    }
  }

  /** The first free buffer leaves the queue. */
  lemma FirstDetachedFits(c: Core)
    requires c.Fit() && c.lists.freeBuffers != []
    ensures var s := c.lists.freeBuffers[0];
            s < |c.slots| && c.slots[s].buffer.Some?
            && c.With(s, c.slots[s].Clear(), c.lists.(freeBuffers := c.lists.freeBuffers[1..], freeSlots := c.lists.freeSlots + {s})).Fit()
  {
    hide Core.Fit, Placed;
    var s := c.lists.freeBuffers[0];
    assert s in c.lists.freeBuffers;
    ListedFits(c, s);
    SlotFits(c, s);
    Basics(c);
    WithoutFirst(c.lists.freeBuffers);
    OneSlotFits(c, s, c.slots[s].Clear(), c.lists.(freeBuffers := c.lists.freeBuffers[1..], freeSlots := c.lists.freeSlots + {s}));
  }

  /** A free slot gets a buffer and becomes the first free buffer. */
  lemma AllocatedFits(c: Core, s: nat, buffer: Buffer)
    requires c.Fit() && s in c.lists.freeSlots
    ensures s < |c.slots|
            && c.With(s, c.slots[s].Clear().(buffer := Some(buffer)),
                      c.lists.(freeSlots := c.lists.freeSlots - {s}, freeBuffers := [s] + c.lists.freeBuffers)).Fit()
  {
    hide Core.Fit, Placed;
    ListedFits(c, s);
    SlotFits(c, s);
    Basics(c);
    WithOneMore(c.lists.freeBuffers, s);
    OneSlotFits(c, s, c.slots[s].Clear().(buffer := Some(buffer)),
                c.lists.(freeSlots := c.lists.freeSlots - {s}, freeBuffers := [s] + c.lists.freeBuffers));
  }

  /** An allocation ends, whatever has become of the slot: it gets the buffer, or it is cleared and put among
      the free slots. */
  lemma FinishedFits(c: Core, s: nat, buffer: Option<Buffer>, allocating: set<nat>)
    requires c.Fit() && s in c.lists.allocating && c.lists.allocating - {s} <= allocating <= c.lists.allocating
    ensures s < |c.slots|
    ensures FinishedCore(c, s, buffer, allocating).Fit() <==>
              if buffer.Some? then s in c.lists.active || s in c.lists.freeBuffers else s in c.lists.freeSlots
  {
    hide InOrder, Accounted, CountsMatch;
    Basics(c);
    SlotFits(c, s);
    var d := FinishedCore(c, s, buffer, allocating);
    if buffer.Some? || s in c.lists.freeSlots {
      OneSlotFits(c, s, d.slots[s], d.lists);
    } else {
      assert !d.lists.Allow(s, d.slots[s]);
    }
  }

  ghost function FinishedCore(c: Core, s: nat, buffer: Option<Buffer>, allocating: set<nat>): Core
    requires s < |c.slots|
  {
    if buffer.Some? then c.With(s, c.slots[s].(buffer := buffer), c.lists.(allocating := allocating))
    else c.With(s, c.slots[s].Clear(), c.lists.(allocating := allocating, freeSlots := c.lists.freeSlots + {s}))
  }

  /** A buffer is queued, in place of the last one if that is droppable. */
  lemma PutFits(c: Core, s: nat, droppable: bool)
    requires c.Fit() && s < |c.slots| && c.slots[s].dequeued > 0 && c.slots[s].buffer.Some?
    ensures DropsLast(c.frames.queue) ==> c.frames.queue[|c.frames.queue| - 1].slot < |c.slots|
    ensures PutCore(c, s, droppable).Fit()
  {
    hide Placed, CountsMatch, InOrder, Accounted, Enqueue;
    var queue, n := c.frames.queue, c.frames.counter;
    Basics(c);
    if queue != [] {
      LastInOrder(queue, n);
    }
    SlotFits(c, s);
    var item := Item(s, n + 1, droppable, false);
    PutMatches(c.slots, queue, item, n, c.sharedMode);
    EnqueueInOrder(queue, item, n);
    StepAccounts(c.frames, Put(s, droppable));
    PutMoves(c.slots, c.lists, queue, n, s, c.sharedMode, PutCore(c, s, droppable).lists);
  }

  ghost function PutCore(c: Core, s: nat, droppable: bool): Core
    requires s < |c.slots| && (DropsLast(c.frames.queue) ==> c.frames.queue[|c.frames.queue| - 1].slot < |c.slots|)
  {
    var queue := c.frames.queue;
    var slots := AfterPut(c.slots, queue, s, c.frames.counter + 1, c.sharedMode);
    c.(slots := slots, frames := After(c.frames, Put(s, droppable)),
       lists := if DropsLast(queue) then GivenBackLists(c.lists, queue[|queue| - 1].slot, slots[queue[|queue| - 1].slot]) else c.lists)
  }

  lemma PutCoreIs(c: Core, s: nat, droppable: bool, replaced: bool)
    requires s < |c.slots| && (DropsLast(c.frames.queue) ==> c.frames.queue[|c.frames.queue| - 1].slot < |c.slots|)
    requires replaced <==> DropsLast(c.frames.queue)
                           && !AfterPut(c.slots, c.frames.queue, s, c.frames.counter + 1, c.sharedMode)[c.frames.queue[|c.frames.queue| - 1].slot].shared
    ensures var queue, n := c.frames.queue, c.frames.counter + 1;
            PutCore(c, s, droppable) == c.(
              slots := AfterPut(c.slots, queue, s, n, c.sharedMode),
              frames := Frames(Enqueue(queue, Item(s, n, droppable, false)), n, c.frames.taken,
                               c.frames.dropped + if Replaces(queue) then [queue[|queue| - 1].frameNumber] else []),
              lists := if replaced then c.lists.(active := c.lists.active - {queue[|queue| - 1].slot},
                                                 freeBuffers := c.lists.freeBuffers + [queue[|queue| - 1].slot]) else c.lists)
  {
  }

  /** The consumer takes the first item. */
  lemma TakenFits(c: Core)
    requires c.Fit() && c.frames.queue != []
    ensures var item := c.frames.queue[0];
            item.slot < |c.slots|
            && c.(frames := After(c.frames, Take),
                  slots := if item.stale then c.slots else c.slots[item.slot := c.slots[item.slot].Acquire()]).Fit()
  {
    hide Placed, CountsMatch, InOrder, Accounted;
    TakingFirst(c.slots, c.lists, c.frames.queue, c.frames.counter);
    StepAccounts(c.frames, Take);
  }

  /** All buffers are freed, and the items in the queue become stale. */
  lemma FreedFits(c: Core, slots: seq<Slot>)
    requires c.Fit() && AllCleared(c.slots, c.lists, slots)
    ensures FreedCore(c, slots).Fit()
  {
    hide Placed, CountsMatch, InOrder, Accounted, AllCleared;
    ClearingMoves(c.slots, c.lists, slots, FreedCore(c, slots).lists);
    ClearedCounts(c.slots, c.lists, slots, c.frames.queue, c.frames.counter);
    StepAccounts(c.frames, Stale);
  }

  ghost function FreedCore(c: Core, slots: seq<Slot>): Core {
    c.(slots := slots, sharedSlot := None, frames := After(c.frames, Stale),
       lists := Lists(c.lists.freeSlots + c.lists.active + Elements(c.lists.freeBuffers), [], {}, c.lists.unused, c.lists.allocating))
  }

  /** The queue is abandoned once all buffers have been freed. */
  lemma AbandonedFits(c: Core, slots: seq<Slot>)
    requires c.Fit() && AllCleared(c.slots, c.lists, slots)
    ensures FreedCore(c, slots).(frames := After(c.frames, Forget), abandoned := true).Fit()
  {
    hide Placed, CountsMatch, InOrder, Accounted, AllCleared;
    ClearingMoves(c.slots, c.lists, slots, FreedCore(c, slots).lists);
    ClearedCounts(c.slots, c.lists, slots, c.frames.queue, c.frames.counter);
    StepAccounts(c.frames, Forget);
    NothingInOrder(c.frames.counter);
  }

  lemma NothingInOrder(frameCounter: nat)
    ensures InOrder([], frameCounter)
  {
  }
}
