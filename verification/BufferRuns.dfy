/** What the producer's operations mean for a buffer queue as a whole. */
module BufferRuns {
  import opened BitSets
  import opened Options
  import opened BufferSlots
  import opened BufferFrames
  import opened BufferCore
  import opened BufferQueue

  // ----- the slots -----

  lemma {:induction false} ListedOnce(list: seq<nat>)
    requires NoDuplicates(list)
    ensures |Elements(list)| == |list|
    decreases |list|
  {
    if list != [] {
      WithoutFirst(list);
      ListedOnce(list[1..]);
      assert Elements(list) == Elements(list[1..]) + {list[0]};
      assert list[0] !in Elements(list[1..]);
    }
  }

  lemma SlotIs(slots: seq<Slot>, lists: Lists, s: nat)
    requires Placed(slots, lists)
    ensures s in lists.freeSlots + Elements(lists.freeBuffers) + lists.active + Elements(lists.unused) <==> s < NUM_BUFFER_SLOTS
    ensures s in lists.freeSlots ==> s !in Elements(lists.freeBuffers) + lists.active + Elements(lists.unused)
    ensures s in Elements(lists.freeBuffers) ==> s !in lists.active + Elements(lists.unused)
    ensures s in lists.active ==> s !in Elements(lists.unused)
    ensures s < NUM_BUFFER_SLOTS ==>
              && (s in lists.freeBuffers ==> slots[s].buffer.Some?) && (s in lists.freeSlots ==> slots[s].buffer == None)
              && (!slots[s].IsFree() ==> s in lists.active)
              && (!slots[s].shared ==> slots[s].dequeued + slots[s].queued + slots[s].acquired <= 1)
  {
    Where(slots, lists, s);
  }

  lemma AllSlotsAre(slots: seq<Slot>, lists: Lists)
    requires Placed(slots, lists)
    ensures var (a, b, c, d) := (lists.freeSlots, Elements(lists.freeBuffers), lists.active, Elements(lists.unused));
            && (forall s: nat :: s in a + b + c + d <==> s in Range(NUM_BUFFER_SLOTS))
            && (forall s: nat :: (s in a ==> s !in b + c + d) && (s in b ==> s !in c + d) && (s in c ==> s !in d))
    ensures forall s :: 0 <= s < NUM_BUFFER_SLOTS ==>
              && (s in lists.freeBuffers ==> slots[s].buffer.Some?) && (s in lists.freeSlots ==> slots[s].buffer == None)
              && (!slots[s].IsFree() ==> s in lists.active)
              && (!slots[s].shared ==> slots[s].dequeued + slots[s].queued + slots[s].acquired <= 1)
  {
    Where(slots, lists, 0);
    hide Placed, Lists.WellFormed, Elements;
    forall s: nat {
      SlotIs(slots, lists, s);
    }
  }

  /** What the slot invariant says: the four lists are disjoint and together hold every slot once; free
      buffers hold a buffer, free slots none; only active slots are dequeued, queued or acquired, and a slot
      that is not shared by one owner at a time. */
  lemma SlotsArePartitioned(slots: seq<Slot>, lists: Lists)
    requires Placed(slots, lists)
    ensures var l := lists;
            && l.freeSlots !! Elements(l.freeBuffers) !! l.active !! Elements(l.unused)
            && l.freeSlots + Elements(l.freeBuffers) + l.active + Elements(l.unused) == Range(NUM_BUFFER_SLOTS)
            && |l.freeSlots| + |l.freeBuffers| + |l.active| + |l.unused| == NUM_BUFFER_SLOTS
    ensures forall s :: 0 <= s < NUM_BUFFER_SLOTS ==>
              && (s in lists.freeBuffers ==> slots[s].buffer.Some?) && (s in lists.freeSlots ==> slots[s].buffer == None)
              && (!slots[s].IsFree() ==> s in lists.active)
              && (!slots[s].shared ==> slots[s].dequeued + slots[s].queued + slots[s].acquired <= 1)
  {
    Where(slots, lists, 0);
    ListedOnce(lists.freeBuffers);
    ListedOnce(lists.unused);
    AllSlotsAre(slots, lists);
    hide Placed, Lists.WellFormed, Elements, Range, Fits;
    FourParts(lists.freeSlots, Elements(lists.freeBuffers), lists.active, Elements(lists.unused), Range(NUM_BUFFER_SLOTS));
  }

  lemma FourParts(a: set<nat>, b: set<nat>, c: set<nat>, d: set<nat>, all: set<nat>)
    requires forall s: nat :: s in a + b + c + d <==> s in all
    requires forall s: nat :: (s in a ==> s !in b + c + d) && (s in b ==> s !in c + d) && (s in c ==> s !in d)
    ensures a !! b !! c !! d && a + b + c + d == all && |a| + |b| + |c| + |d| == |all|
  {
    assert a !! b && a + b !! c && a + b + c !! d;
    assert a + b + c + d == all;
  }

  /** A producer that may allocate waits for a slot only while the queue is longer than it should be or every
      slot in use is held by somebody, or is left over from shared buffer mode. */
  lemma WaitsOnlyWhenAllAreHeld(q: BufferQueueProducer)
    requires q.Valid() && q.allowAllocation && q.WaitOutcome(true) == MustWait
    ensures !q.abandoned
    ensures |q.queue| > q.MaxBufferCount()
            || forall s :: 0 <= s < NUM_BUFFER_SLOTS <= q.slots.Length && s !in q.unusedSlots ==>
                 s in q.activeBuffers && (q.slots[s].shared || q.slots[s].OutstandingOnce())
  {
    hide Core.Fit;
    if |q.queue| <= q.MaxBufferCount() {
      forall s | 0 <= s < NUM_BUFFER_SLOTS <= q.slots.Length && s !in q.unusedSlots
        ensures s in q.activeBuffers && (q.slots[s].shared || q.slots[s].OutstandingOnce())
      {
        SlotFits(q.Now(), s);
      }
    }
  }

  /** When a dequeue that is past its limits uses a buffer that is not there: exactly if there is a shared slot
      without one, and then that one is still being allocated. */
  lemma UsesNoBufferIff(q: BufferQueueProducer, wanted: Attributes)
    requires q.Valid()
    ensures q.DequeueOutcome(wanted).0 == NullBuffer <==>
              && !q.abandoned && !q.AtDequeueLimit() && |q.queue| <= q.MaxBufferCount()
              && q.sharedBufferSlot.Some? && q.sharedBufferSlot.value < q.slots.Length && q.slots[q.sharedBufferSlot.value].buffer == None
    ensures q.DequeueOutcome(wanted).0 == NullBuffer ==>
              q.sharedBufferSlot.value in q.allocating && q.slots[q.sharedBufferSlot.value].queued == 0
  {
    hide Core.Fit, BufferQueueProducer.AtDequeueLimit, BufferQueueProducer.Acquired, BufferQueueProducer.MaxBufferCountFor;
    q.InFields();
    if q.sharedBufferSlot.Some? {
      SlotFits(q.Now(), q.sharedBufferSlot.value);
    }
  }

  /** Which slot a dequeue gets: the shared one; or else the oldest free buffer, and a slot without a buffer only if
      there is none; or, if nothing may be allocated, the oldest free buffer that is as wanted. */
  lemma DequeueRules(q: BufferQueueProducer, wanted: Attributes)
    requires q.Valid() && !q.abandoned && |q.queue| <= q.MaxBufferCount()
    requires q.bufferHasBeenQueued ==> |set s | s in q.activeBuffers && s < q.slots.Length && q.slots[s].dequeued > 0| < q.maxDequeuedBufferCount
    ensures var (status, slot) := q.DequeueOutcome(wanted);
            var shares := q.sharedBufferMode && q.sharedBufferSlot.Some?;
            && (shares && status == NoError ==> slot == q.sharedBufferSlot)
            && (!shares && q.allowAllocation && q.freeBuffers != [] ==> status == NoError && slot == Some(q.freeBuffers[0]))
            && (!shares && q.allowAllocation && q.freeBuffers == [] ==>
                  forall s :: s in q.freeSlots && (forall t :: t in q.freeSlots ==> s <= t) ==> status == NoError && slot == Some(s))
            && (!shares && !q.allowAllocation ==>
                  forall k :: 0 <= k < |q.freeBuffers| && Fitting(q, wanted, k) && (forall i :: 0 <= i < k ==> !Fitting(q, wanted, i)) ==>
                    status == NoError && slot == Some(q.freeBuffers[k]))
            && (!shares && (if q.allowAllocation then q.freeBuffers == [] && q.freeSlots == {}
                            else forall k :: 0 <= k < |q.freeBuffers| ==> !Fitting(q, wanted, k)) ==>
                  slot == None
                  && status == if (q.dequeueBufferCannotBlock || q.asyncMode)
                                  && |set s | s in q.activeBuffers && s < q.slots.Length && q.slots[s].acquired > 0| <= q.maxAcquiredBufferCount
                               then WouldBlock else MustWait)
  {
    hide Core.Fit, BufferQueueProducer.MaxBufferCountFor, FirstFitting;
    q.InFields();
    FreeBuffersInRange(q);
    forall k | 0 <= k < |q.freeBuffers|
      ensures FirstFitting(q.slots[..], q.freeBuffers, wanted) == None ==> !Fitting(q, wanted, k)
      ensures Fitting(q, wanted, k) && (forall i :: 0 <= i < k ==> !Fitting(q, wanted, i)) ==>
                FirstFitting(q.slots[..], q.freeBuffers, wanted) == Some(q.freeBuffers[k])
    {
      forall i | 0 <= i <= k
        ensures Fitting(q, wanted, i) <==> !q.slots[..][q.freeBuffers[i]].NeedsAllocation(wanted)
      {
        NeedsIff(q.slots[q.freeBuffers[i]], wanted);
      }
      FirstFittingIs(q.slots[..], q.freeBuffers, wanted, k);
    }
    FittingIsListed(q.slots[..], q.freeBuffers, wanted);
  }

  /** The free buffer at this place is as wanted. */
  ghost predicate Fitting(q: BufferQueueProducer, wanted: Attributes, k: nat)
    reads q, q.slots
  {
    k < |q.freeBuffers| && q.freeBuffers[k] < q.slots.Length
    && AsWanted(q.slots[q.freeBuffers[k]].buffer, wanted.width, wanted.height, wanted.format, wanted.usage)
  }

  lemma FreeBuffersInRange(q: BufferQueueProducer)
    requires q.Valid()
    ensures forall k :: 0 <= k < |q.freeBuffers| ==> q.freeBuffers[k] < q.slots.Length
  {
    hide Core.Fit;
    q.InFields();
    forall k | 0 <= k < |q.freeBuffers|
      ensures q.freeBuffers[k] < q.slots.Length
    {
      assert q.freeBuffers[k] in q.freeBuffers;
      FreeIsBelow(q.Now(), q.freeBuffers[k]);
    }
  }

  lemma FreeIsBelow(c: Core, s: nat)
    requires c.Fit() && s in c.lists.freeBuffers
    ensures s < NUM_BUFFER_SLOTS
  {
    Where(c.slots, c.lists, s);
  }

  // ----- how the runs below begin -----

  method NewConnected(defaults: Attributes) returns (q: BufferQueueProducer)
    ensures fresh(q) && fresh(q.slots) && q.Valid() && q.defaults == defaults
    ensures q.connected && !q.abandoned && q.allowAllocation && !q.bufferHasBeenQueued && !q.isAllocating && q.allocating == multiset{}
    ensures q.queue == [] && q.activeBuffers == {} && !q.sharedBufferMode && q.sharedBufferSlot == None
    ensures q.freeBuffers == [] && q.freeSlots == {0, 1} && q.slots.Length == NUM_BUFFER_SLOTS
    ensures q.maxDequeuedBufferCount == 1 && q.MaxBufferCount() == 2 && !q.asyncMode
  {
    hide BufferQueueProducer.Valid;
    q := new BufferQueueProducer(false, false, defaults);
    q.InFields();
    var status := q.Connect(true, false, false, false);
  }

  // ----- a run that loses an item -----

  /** The first buffer in shared buffer mode is allocated and becomes the shared one. */
  method DequeueFirst(q: BufferQueueProducer) returns (slot: nat)
    requires q.Valid() && q.connected && !q.abandoned && q.allowAllocation && !q.bufferHasBeenQueued
    requires q.sharedBufferMode && q.sharedBufferSlot == None && q.queue == [] && q.freeBuffers == [] && q.freeSlots != {}
    requires q.activeBuffers == {} && q.allocating == multiset{} && !q.isAllocating
    modifies q`freeSlots, q`freeBuffers, q`activeBuffers, q`sharedBufferSlot, q`isAllocating, q`allocating, q.slots
    ensures q.Valid() && q.sharedBufferSlot == Some(slot) && q.activeBuffers == {slot} && slot < q.slots.Length
    ensures var s := q.slots[slot]; s.shared && s.dequeued == 1 && s.acquired == 0 && s.buffer == Some(Buffer(q.Wanted(1, 1, 1, {}), q.generationNumber))
    ensures q.allocating == multiset{} && !q.isAllocating
  {
    hide BufferQueueProducer.Valid, SlotsOf, Core.Fit;
    FirstFreeIs(q);
    var status, needsAllocation, attached, age;
    status, slot, needsAllocation, attached, age := q.DequeueBuffer(1, 1, 1, {});
    assert status == NoError;
    status := q.FinishDequeue(slot, q.Wanted(1, 1, 1, {}), true);
  }

  lemma FirstFreeIs(q: BufferQueueProducer)
    requires q.Valid() && q.freeSlots != {}
    ensures var s := FirstMarked(q.freeSlots); s < q.slots.Length == NUM_BUFFER_SLOTS && q.slots[s].Empty()
  {
    hide Core.Fit;
    ListedFits(q.Now(), FirstMarked(q.freeSlots));
  }

  method QueueFirst(q: BufferQueueProducer, slot: nat)
    requires q.Valid() && q.connected && !q.abandoned && q.sharedBufferMode && q.sharedBufferSlot == Some(slot) && q.queue == []
    requires q.allocating == multiset{} && q.activeBuffers == {slot} && slot < q.slots.Length == NUM_BUFFER_SLOTS
    requires q.slots[slot].shared && q.slots[slot].dequeued == 1 && q.slots[slot].acquired == 0 && q.slots[slot].buffer.Some?
    modifies q`queue, q`frameCounter, q`dropped, q`nextCallbackTicket, q`bufferHasBeenQueued, q`sharedBufferSlot, q`activeBuffers, q`freeBuffers, q.slots
    ensures q.Valid() && q.activeBuffers == {slot} && q.sharedBufferSlot == Some(slot)
    ensures |q.queue| == 1 && q.queue[0].slot == slot && !q.queue[0].stale
    ensures var s := q.slots[slot]; s.dequeued == 0 && s.acquired == 0 && s.requested && s.buffer == old(q.slots[slot].buffer)
  {
    hide BufferQueueProducer.Valid;
    var status, buffer := q.RequestBuffer(slot);
    assert status == NoError;
    var frameNumber, ticket, replaced, callback;
    status, frameNumber, ticket, replaced, callback := q.QueueBuffer(slot, QueueInput(true, true, true));
    assert status == NoError;
  }

  method DequeueAgain(q: BufferQueueProducer, slot: nat)
    requires q.Valid() && q.connected && !q.abandoned && q.sharedBufferMode && q.sharedBufferSlot == Some(slot)
    requires q.allocating == multiset{} && !q.isAllocating && q.maxDequeuedBufferCount > 0 && |q.queue| <= q.MaxBufferCount()
    requires q.activeBuffers == {slot} && slot < q.slots.Length && q.slots[slot].dequeued == 0
    requires !q.slots[slot].NeedsAllocation(q.Wanted(1, 1, 1, {}))
    modifies q`freeSlots, q`freeBuffers, q`activeBuffers, q`sharedBufferSlot, q`isAllocating, q`allocating, q.slots
    ensures q.Valid() && q.activeBuffers == {slot}
    ensures q.slots[slot].dequeued == 1 && q.slots[slot].requested == old(q.slots[slot].requested)
  {
    hide BufferQueueProducer.Valid;
    assert q.Dequeued() == {};
    var status, again, needsAllocation, attached, age := q.DequeueBuffer(1, 1, 1, {});
    assert status == NoError;
  }

  method StartSharing(defaults: Attributes) returns (q: BufferQueueProducer)
    ensures fresh(q) && fresh(q.slots)
    ensures q.Valid() && q.connected && !q.abandoned && q.allowAllocation && !q.bufferHasBeenQueued
    ensures q.sharedBufferMode && q.sharedBufferSlot == None && q.queue == [] && q.freeBuffers == [] && q.freeSlots != {}
    ensures q.activeBuffers == {} && q.allocating == multiset{} && !q.isAllocating && q.maxDequeuedBufferCount == 1 && q.MaxBufferCount() == 2
  {
    hide BufferQueueProducer.Valid;
    q := NewConnected(defaults);
    q.SetSharedBufferMode(true);
  }

  method ShareAndQueue(defaults: Attributes) returns (q: BufferQueueProducer, slot: nat)
    ensures fresh(q) && fresh(q.slots)
    ensures q.Valid() && q.connected && !q.abandoned && q.sharedBufferMode && q.sharedBufferSlot == Some(slot)
    ensures q.allocating == multiset{} && !q.isAllocating && q.maxDequeuedBufferCount == 1 && |q.queue| <= q.MaxBufferCount()
    ensures q.activeBuffers == {slot} && slot < q.slots.Length && q.slots[slot].requested
    ensures q.slots[slot].dequeued == 0 && q.slots[slot].acquired == 0
    ensures !q.slots[slot].NeedsAllocation(q.Wanted(1, 1, 1, {}))
    ensures |q.queue| == 1 && q.queue[0].slot == slot && !q.queue[0].stale
  {
    hide BufferQueueProducer.Valid, BufferQueueProducer.MaxBufferCountFor, SlotsOf, Core.Fit;
    q := StartSharing(defaults);
    q.InFields();
    slot := DequeueFirst(q);
    QueueFirst(q, slot);
  }

  /** A buffer is shared, queued and dequeued again; then shared buffer mode ends and the producer detaches
      it.  Its item stays in the queue with no slot that counts it. */
  method DetachASharedBuffer(defaults: Attributes) returns (q: BufferQueueProducer)
    ensures !q.Valid() && |q.queue| == 1 && !q.queue[0].stale && q.activeBuffers == {}
  {
    hide BufferQueueProducer.Valid;
    var slot;
    q, slot := ShareAndQueue(defaults);
    DequeueAgain(q, slot);
    q.SetSharedBufferMode(false);
    OneItemCounts(q);
    var status := q.DetachBuffer(slot);
  }

  /** The same buffer is taken and given back by the consumer instead; when shared buffer mode ends, its slot
      stays active although nobody holds it. */
  method StrandASharedBuffer(defaults: Attributes) returns (q: BufferQueueProducer)
    ensures q.Valid() && q.Stranded() != {}
  {
    hide BufferQueueProducer.Valid, Core.Fit, SlotsOf;
    var slot;
    q, slot := ShareAndQueue(defaults);
    TakeAndGiveBack(q, slot);
    q.SetSharedBufferMode(false);
  }

  method TakeAndGiveBack(q: BufferQueueProducer, slot: nat)
    requires q.Valid() && q.sharedBufferMode && q.sharedBufferSlot == Some(slot) && q.activeBuffers == {slot} && slot < q.slots.Length
    requires |q.queue| == 1 && q.queue[0].slot == slot && !q.queue[0].stale && q.slots[slot].dequeued == 0 && q.slots[slot].acquired == 0
    modifies q`queue, q`taken, q`activeBuffers, q`freeBuffers, q.slots
    ensures q.Valid() && q.activeBuffers == {slot} && slot < q.slots.Length && q.slots[slot].IsFree()
  {
    hide BufferQueueProducer.Valid, Core.Fit;
    OneItemCounts(q);
    q.InFields();
    var item := q.AcquireFirst();
    q.InFields();
    q.Release(slot);
  }

  lemma OneItemCounts(q: BufferQueueProducer)
    requires q.Valid() && |q.queue| == 1 && !q.queue[0].stale
    ensures q.queue[0].slot < q.slots.Length == NUM_BUFFER_SLOTS && q.slots[q.queue[0].slot].queued == 1
  {
    hide Core.Fit;
    q.InFields();
    var s := q.queue[0].slot;
    assert QueuedItems(q.queue, s) == QueuedItems([], s) + Counted(q.queue[0], s);
    SlotFits(q.Now(), s);
  }

  // ----- a slot whose buffer does not come -----

  /** The first slot is handed out for a buffer to be allocated. */
  method FirstAllocation(defaults: Attributes) returns (q: BufferQueueProducer, slot: nat)
    ensures fresh(q) && fresh(q.slots) && q.Valid() && q.connected && !q.abandoned && !q.sharedBufferMode && q.slots.Length == NUM_BUFFER_SLOTS
    ensures slot in q.allocating && slot in q.activeBuffers && slot < q.slots.Length && slot !in q.freeSlots
    ensures q.slots[slot].dequeued == 1 && q.slots[slot].buffer == None && !q.slots[slot].shared
  {
    hide BufferQueueProducer.Valid, Core.Fit, SlotsOf;
    q := NewConnected(defaults);
    FirstFreeIs(q);
    var status, needsAllocation, attached, age;
    status, slot, needsAllocation, attached, age := q.DequeueBuffer(1, 1, 1, {});
    assert status == NoError;
  }

  /** The allocation fails: the slot is free and active at once. */
  method FailToAllocate(defaults: Attributes) returns (q: BufferQueueProducer, slot: nat)
    ensures !q.Valid() && slot in q.freeSlots && slot in q.activeBuffers
  {
    hide BufferQueueProducer.Valid, Core.Fit, SlotsOf;
    q, slot := FirstAllocation(defaults);
    var status := q.FinishDequeue(slot, q.Wanted(1, 1, 1, {}), false);
  }

  /** Another thread cancels the slot while its buffer is being allocated. */
  method CancelTooSoon(defaults: Attributes) returns (q: BufferQueueProducer, slot: nat)
    ensures !q.Valid() && slot in q.freeBuffers && slot < q.slots.Length && q.slots[slot].buffer == None
  {
    hide BufferQueueProducer.Valid, Core.Fit, SlotsOf;
    q, slot := FirstAllocation(defaults);
    var status := q.CancelBuffer(slot, true);
  }

  // ----- two allocations at once -----

  /** Two free buffers, none of which is as the producer will want it. */
  method TwoFreeBuffers(defaults: Attributes, cached: Buffer) returns (q: BufferQueueProducer)
    requires cached.NeedsReallocation(Wanted1(defaults))
    ensures fresh(q) && fresh(q.slots) && TwoUnfitting(q) && q.defaults == defaults
    ensures q.allocating == multiset{} && !q.isAllocating && q.activeBuffers == {} && !q.sharedBufferMode && q.sharedBufferSlot == None
  {
    hide Core.Fit, SlotsOf, BufferQueueProducer.Valid;
    q := NewConnected(defaults);
    assert FirstMarked({0, 1}) == 0;
    var used := q.AllocateBuffer(Some(cached), true);
    assert q.freeSlots == {1} && FirstMarked(q.freeSlots) == 1;
    used := q.AllocateBuffer(Some(cached), true);
    q.InFields();
  }

  /** What a producer gets that asks for size and format 1. */
  function Wanted1(defaults: Attributes): Attributes {
    Attributes(1, 1, 1, {} + defaults.usage)
  }

  ghost predicate CanDequeue(q: BufferQueueProducer)
    reads q, q.slots
  {
    && q.Valid() && q.connected && !q.abandoned && q.allowAllocation && !q.bufferHasBeenQueued && !q.asyncMode
    && |q.queue| <= q.MaxBufferCount() && q.slots.Length == NUM_BUFFER_SLOTS
  }

  ghost predicate TwoUnfitting(q: BufferQueueProducer)
    reads q, q.slots
  {
    && CanDequeue(q) && q.freeBuffers == [1, 0]
    && q.slots[0].NeedsAllocation(Wanted1(q.defaults)) && q.slots[1].NeedsAllocation(Wanted1(q.defaults))
  }

  /** The first free buffer is not as wanted: its slot is handed out for a new one to be allocated. */
  method DequeueToAllocate(q: BufferQueueProducer, slot: nat)
    requires CanDequeue(q) && !(q.sharedBufferMode && q.sharedBufferSlot.Some?)
    requires q.freeBuffers != [] && q.freeBuffers[0] == slot && slot < q.slots.Length
    requires q.slots[slot].NeedsAllocation(Wanted1(q.defaults))
    modifies q`freeSlots, q`freeBuffers, q`activeBuffers, q`sharedBufferSlot, q`isAllocating, q`allocating, q.slots
    ensures CanDequeue(q) && q.isAllocating && q.allocating == old(q.allocating) + multiset{slot}
    ensures q.activeBuffers == old(q.activeBuffers) + {slot} && q.freeBuffers == old(q.freeBuffers)[1..]
    ensures q.sharedBufferSlot == if q.sharedBufferMode then Some(slot) else old(q.sharedBufferSlot)
    ensures q.slots[slot].buffer == None
    ensures forall s :: 0 <= s < NUM_BUFFER_SLOTS && s != slot ==> q.slots[s] == old(q.slots[s])
  {
    hide Core.Fit, SlotsOf, BufferQueueProducer.Valid;
    var status, found, needsAllocation, attached, age := q.DequeueBuffer(1, 1, 1, {});
  }

  /** Two free buffers are handed out one after the other, both to be replaced. */
  method TwoAllocations(defaults: Attributes, cached: Buffer) returns (q: BufferQueueProducer)
    requires cached.NeedsReallocation(Wanted1(defaults))
    ensures fresh(q) && fresh(q.slots) && q.Valid() && q.connected && !q.abandoned && q.allocating == multiset{0, 1} && q.activeBuffers == {0, 1}
  {
    hide BufferQueueProducer.Valid, SlotsOf, Core.Fit;
    q := TwoFreeBuffers(defaults, cached);
    DequeueToAllocate(q, 1);
    DequeueToAllocate(q, 0);
  }

  /** The flag that others wait for is one for all allocations: while two are under way the end of the first one
      clears it, and the queue is disconnected before the second one ends.  That one puts its buffer into a slot
      that has become free. */
  method DisconnectWhileAllocating(defaults: Attributes, cached: Buffer) returns (q: BufferQueueProducer)
    requires cached.NeedsReallocation(Wanted1(defaults))
    ensures !q.Valid() && 0 in q.freeSlots && q.slots.Length > 0 && q.slots[0].buffer.Some?
  {
    hide BufferQueueProducer.Valid, SlotsOf, Core.Fit;
    q := TwoAllocations(defaults, cached);
    var status := q.FinishDequeue(1, Wanted1(defaults), true);
    status := q.Disconnect();
    EndedInAFreeSlot(q, Wanted1(defaults));
  }

  method EndedInAFreeSlot(q: BufferQueueProducer, wanted: Attributes)
    requires q.Valid() && !q.abandoned && q.allocating == multiset{0} && 0 in q.freeSlots && q.activeBuffers == {} && q.freeBuffers == []
    modifies q`freeSlots, q`isAllocating, q`allocating, q.slots
    ensures !q.Valid() && 0 in q.freeSlots && q.slots.Length > 0 && q.slots[0].buffer.Some?
  {
    hide BufferQueueProducer.Valid, SlotsOf, Core.Fit;
    var status := q.FinishDequeue(0, wanted, true);
  }

  /** In shared buffer mode a free buffer is replaced and its slot becomes the shared one; while the new buffer
      is being allocated another thread dequeues and looks into the shared slot. */
  method DequeueTheSharedTooSoon(defaults: Attributes, cached: Buffer) returns (q: BufferQueueProducer, status: Status)
    requires cached.NeedsReallocation(Wanted1(defaults))
    ensures q.Valid() && q.isAllocating && status == NullBuffer
  {
    hide BufferQueueProducer.Valid, SlotsOf, Core.Fit;
    q := TwoFreeBuffers(defaults, cached);
    q.SetSharedBufferMode(true);
    DequeueToAllocate(q, 1);
    var slot, needsAllocation, attached, age;
    status, slot, needsAllocation, attached, age := q.DequeueBuffer(1, 1, 1, {});
  }

  // ----- a limit that cuts the number of buffers -----

  /** As many buffers as the limit allows, all of them for the producer. */
  method AllDequeued(defaults: Attributes) returns (q: BufferQueueProducer)
    ensures fresh(q) && fresh(q.slots) && q.Valid() && !q.connected && !q.abandoned && !q.isAllocating && !q.asyncMode && q.consumerControlledByApp
    ensures q.maxDequeuedBufferCount == 63 && q.maxAcquiredBufferCount == 1 && q.maxBufferCount == NUM_BUFFER_SLOTS
    ensures q.unusedSlots == [] && !q.dequeueBufferCannotBlock && 0 in q.freeSlots && q.activeBuffers == {}
  {
    hide BufferQueueProducer.Valid, SlotsOf, Core.Fit;
    q := new BufferQueueProducer(false, true, defaults);
    q.InFields();
    assert q.Dequeued() == {};
    var status := q.SetMaxDequeuedBufferCount(63);
    assert status == NoError;
  }

  /** Without waiting there is one more buffer than the limit allows, so that taking one away again gives up a
      slot that was never there. */
  method CutByTheLimit(defaults: Attributes) returns (q: BufferQueueProducer)
    ensures q.Valid() && !q.SlotsAreCounted()
  {
    hide BufferQueueProducer.Valid, SlotsOf, Core.Fit, BufferQueueProducer.Dequeued;
    q := AllDequeued(defaults);
    var status := q.Connect(true, true, false, false);
    assert status == NoError && 0 in q.freeSlots;
    NoneDequeued(q);
    status := q.SetMaxDequeuedBufferCount(62);
    assert status == NoError;
  }

  lemma NoneDequeued(q: BufferQueueProducer)
    requires q.activeBuffers == {}
    ensures q.Dequeued() == {}
  {
  }
}
