/** The producer's half of a buffer queue.

    `BufferQueueCore` is not part of this model's source tree: its fields are fields here, and its helpers
    (`getMaxBufferCountLocked`, `adjustAvailableSlotsLocked`, `freeAllBuffersLocked`) are given as the
    methods the producer relies on.  The consumer appears as steps of the environment.  A method holds the
    lock for its whole duration; where the source waits it returns `MustWait`, and the call goes on later,
    after any other steps, by calling the method again from the point of the wait.  `NullBuffer` stands for
    the use of a buffer that is not there, which the source does not guard against. */
module BufferQueue {
  import opened BitSets
  import opened Options
  import opened BufferSlots
  import opened BufferFrames
  import opened BufferCore

  datatype Status = NoError | NoInit | BadValue | InvalidOperation | WouldBlock | NoMemory | MustWait | AllocationFailed | NullBuffer

  /** Where a free slot can come from. */
  datatype Source = TheShared | FreeBuffer | FreeSlot | Nowhere

  datatype Callback = FrameAvailable | FrameReplaced

  /** What of `QueueBufferInput` decides about the call. */
  datatype QueueInput = QueueInput(hasFence: bool, knownScalingMode: bool, cropFits: bool)

  ghost function SlotsOf(allocations: multiset<nat>): set<nat> {
    set s | s in allocations
  }

  lemma OneMoreAllocation(allocations: multiset<nat>, s: nat)
    ensures SlotsOf(allocations + multiset{s}) == SlotsOf(allocations) + {s}
  {
  }

  lemma OneLessAllocation(allocations: multiset<nat>, s: nat)
    requires s in allocations
    ensures SlotsOf(allocations) - {s} <= SlotsOf(allocations - multiset{s}) <= SlotsOf(allocations) && s in SlotsOf(allocations)
  {
  }

  class BufferQueueProducer {
    const slots: array<Slot>
    var freeSlots: set<nat>
    var freeBuffers: seq<nat>
    var activeBuffers: set<nat>
    var unusedSlots: seq<nat>
    var queue: seq<Item>

    var connected: bool
    var abandoned: bool
    var allowAllocation: bool
    var sharedBufferMode: bool
    var sharedBufferSlot: Option<nat>
    var bufferHasBeenQueued: bool
    var frameCounter: nat
    var generationNumber: nat
    var nextCallbackTicket: nat

    var maxBufferCount: nat
    var maxAcquiredBufferCount: nat
    var maxDequeuedBufferCount: nat
    var asyncMode: bool
    var dequeueBufferCannotBlock: bool
    var queueBufferCanDrop: bool
    var legacyBufferDrop: bool

    const consumerIsSurfaceFlinger: bool
    const consumerControlledByApp: bool
    const defaults: Attributes

    var isAllocating: bool

    /** The slots that a buffer is being allocated for outside the lock, once for each call that does. */
    ghost var allocating: multiset<nat>

    /** The numbers of the frames that the consumer took and of those that were dropped. */
    ghost var taken: seq<nat>
    ghost var dropped: seq<nat>

    ghost function AllLists(): Lists
      reads this`freeSlots, this`freeBuffers, this`activeBuffers, this`unusedSlots, this`allocating
    {
      Lists(freeSlots, freeBuffers, activeBuffers, unusedSlots, SlotsOf(allocating))
    }

    /** The state as a value. */
    ghost function Now(): Core
      reads this`freeSlots, this`freeBuffers, this`activeBuffers, this`unusedSlots, this`allocating, this`queue, this`frameCounter,
            this`taken, this`dropped, this`sharedBufferMode, this`sharedBufferSlot, this`abandoned, slots
    {
      Core(slots[..], AllLists(), Frames(queue, frameCounter, taken, dropped), sharedBufferMode, sharedBufferSlot, abandoned)
    }

    /** What every operation keeps. */
    ghost predicate Valid()
      reads this`freeSlots, this`freeBuffers, this`activeBuffers, this`unusedSlots, this`allocating, this`queue, this`frameCounter,
            this`taken, this`dropped, this`sharedBufferMode, this`sharedBufferSlot, this`abandoned, slots
    {
      Now().Fit()
    }

    /** The invariant in the terms of the fields. */
    lemma InFields()
      requires Valid()
      ensures Below(activeBuffers, slots.Length) && slots.Length == NUM_BUFFER_SLOTS
      ensures sharedBufferSlot.Some? ==>
                sharedBufferSlot.value in activeBuffers && sharedBufferMode && sharedBufferSlot.value < slots.Length
                && slots[sharedBufferSlot.value].shared
      ensures abandoned ==> activeBuffers == {} && queue == []
      ensures queue != [] ==> queue[|queue| - 1].slot < slots.Length
    {
      hide Core.Fit;
      Basics(Now());
      if queue != [] {
        LastFits(Now());
      }
    }

    // ----- how many buffers there may be -----

    function MinUndequeuedBufferCount(): nat
      reads this
    {
      if asyncMode || dequeueBufferCannotBlock then maxAcquiredBufferCount + 1 else maxAcquiredBufferCount
    }

    /** `getMaxBufferCountLocked`. */
    static function MaxBufferCountFor(acquired: nat, dequeued: nat, async: bool, cannotBlock: bool, limit: nat): nat {
      var count := acquired + dequeued + if async || cannotBlock then 1 else 0;
      if count > limit then limit else count
    }

    function MaxBufferCount(): nat
      reads this
    {
      MaxBufferCountFor(maxAcquiredBufferCount, maxDequeuedBufferCount, asyncMode, dequeueBufferCannotBlock, maxBufferCount)
    }

    /** As many slots are in use as there may be buffers. */
    predicate SlotsAreCounted()
      reads this
    {
      |unusedSlots| + MaxBufferCount() == NUM_BUFFER_SLOTS
    }

    constructor (consumerIsSurfaceFlinger: bool, consumerControlledByApp: bool, defaults: Attributes)
      ensures Valid() && SlotsAreCounted() && fresh(slots)
      ensures taken == dropped == [] && !connected && !abandoned && queue == [] && activeBuffers == {} && freeBuffers == [] && freeSlots == {0, 1}
      ensures !sharedBufferMode && sharedBufferSlot == None && !bufferHasBeenQueued && allocating == multiset{} && !isAllocating
      ensures maxAcquiredBufferCount == maxDequeuedBufferCount == 1 && maxBufferCount == NUM_BUFFER_SLOTS
      ensures !asyncMode && !dequeueBufferCannotBlock && frameCounter == nextCallbackTicket == 0 && allowAllocation
      ensures this.consumerControlledByApp == consumerControlledByApp && this.defaults == defaults
    {
      slots := new Slot[NUM_BUFFER_SLOTS](i => NEW_SLOT);
      this.consumerIsSurfaceFlinger, this.consumerControlledByApp, this.defaults := consumerIsSurfaceFlinger, consumerControlledByApp, defaults;
      freeSlots, freeBuffers, activeBuffers, queue := {0, 1}, [], {}, [];
      unusedSlots := seq(NUM_BUFFER_SLOTS - 2, i requires 0 <= i < NUM_BUFFER_SLOTS - 2 => NUM_BUFFER_SLOTS - 1 - i);
      connected, abandoned, allowAllocation, sharedBufferMode, sharedBufferSlot := false, false, true, false, None;
      bufferHasBeenQueued, frameCounter, generationNumber, nextCallbackTicket := false, 0, 0, 0;
      maxBufferCount, maxAcquiredBufferCount, maxDequeuedBufferCount := NUM_BUFFER_SLOTS, 1, 1;
      asyncMode, dequeueBufferCannotBlock, queueBufferCanDrop, legacyBufferDrop := false, false, false, false;
      isAllocating, allocating, taken, dropped := false, multiset{}, [], [];
      new;
      NoFrames();
      assert SlotsOf(allocating) == {};
      forall s | 2 <= s < NUM_BUFFER_SLOTS
        ensures s in unusedSlots
      {
        assert unusedSlots[NUM_BUFFER_SLOTS - 1 - s] == s;
      }
    }

    // ----- helpers of the core -----

    method ClearBufferSlot(s: nat)
      requires s < slots.Length
      modifies slots
      ensures slots[..] == old(slots[..])[s := old(slots[s]).Clear()]
    {
      slots[s] := slots[s].Clear();
    }

    /** `adjustAvailableSlotsLocked`: moves slots between unused and free, all or nothing. */
    method AdjustAvailableSlots(delta: int) returns (ok: bool)
      requires Valid() && !abandoned
      modifies this`freeSlots, this`freeBuffers, this`unusedSlots, slots
      ensures Valid()
      ensures ok == old(if delta >= 0 then delta <= |unusedSlots| else -delta <= |freeSlots| + |freeBuffers|)
      ensures |unusedSlots| == old(|unusedSlots|) - if ok then delta else 0
      ensures !ok ==> slots[..] == old(slots[..]) && AllLists() == old(AllLists())
      ensures delta >= 0 ==> freeBuffers == old(freeBuffers) && old(freeSlots) <= freeSlots
      ensures forall s :: s in activeBuffers ==> slots[s] == old(slots[s])
      ensures delta == 0 ==> AllLists() == old(AllLists()) && slots[..] == old(slots[..])
    {
      if delta >= 0 {
        ok := delta <= |unusedSlots|;
        if ok {
          UseSlots(delta);
        }
      } else {
        ok := -delta <= |freeSlots| + |freeBuffers|;
        if ok {
          GiveUpSlots(-delta);
        }
      }
    }

    method UseSlots(count: nat)
      requires Valid() && count <= |unusedSlots|
      modifies this`freeSlots, this`unusedSlots
      ensures Valid() && |unusedSlots| == old(|unusedSlots|) - count && old(freeSlots) <= freeSlots
      ensures count == 0 ==> AllLists() == old(AllLists())
    {
      hide Valid;
      for i := 0 to count
        invariant Valid() && |unusedSlots| == old(|unusedSlots|) - i && old(freeSlots) <= freeSlots
        invariant count == 0 ==> AllLists() == old(AllLists())
      {
        UseSlot();
      }
    }

    method UseSlot()
      requires Valid() && unusedSlots != []
      modifies this`freeSlots, this`unusedSlots
      ensures Valid() && |unusedSlots| == old(|unusedSlots|) - 1 && old(freeSlots) <= freeSlots
    {
      hide Core.Fit;
      UsedFits(Now());
      var s := unusedSlots[|unusedSlots| - 1];
      unusedSlots := unusedSlots[..|unusedSlots| - 1];
      freeSlots := freeSlots + {s};
    }

    /** Free slots go first, then the buffers that were freed last. */
    method GiveUpSlots(count: nat)
      requires Valid() && !abandoned && count <= |freeSlots| + |freeBuffers|
      modifies this`freeSlots, this`freeBuffers, this`unusedSlots, slots
      ensures Valid() && |unusedSlots| == old(|unusedSlots|) + count
      ensures forall s :: s in activeBuffers ==> slots[s] == old(slots[s])
    {
      hide Valid;
      InFields();
      for i := 0 to count
        invariant Valid() && |unusedSlots| == old(|unusedSlots|) + i && count - i <= |freeSlots| + |freeBuffers|
        invariant forall s :: s in activeBuffers ==> slots[s] == old(slots[s])
      {
        GiveUpSlot();
      }
    }

    method GiveUpSlot()
      requires Valid() && !abandoned && |freeSlots| + |freeBuffers| > 0
      modifies this`freeSlots, this`freeBuffers, this`unusedSlots, slots
      ensures Valid() && |unusedSlots| == old(|unusedSlots|) + 1
      ensures |freeSlots| + |freeBuffers| == old(|freeSlots| + |freeBuffers|) - 1
      ensures forall s :: s in activeBuffers ==> slots[s] == old(slots[s])
    {
      hide Core.Fit;
      InFields();
      ghost var c := Now();
      var s: nat;
      if freeSlots != {} {
        s := FirstMarked(freeSlots);
        freeSlots := freeSlots - {s};
      } else {
        s := freeBuffers[|freeBuffers| - 1];
        FreeBuffersDiffer(c);
        WithoutLast(freeBuffers);
        freeBuffers := freeBuffers[..|freeBuffers| - 1];
      }
      unusedSlots := unusedSlots + [s];
      GivenUpFits(c, s, AllLists());
      ListedFits(c, s);
      ClearBufferSlot(s);
    }

    // ----- settings -----

    ghost function Dequeued(): set<nat>
      reads this, slots
    {
      set s | s in activeBuffers && s < slots.Length && slots[s].dequeued > 0
    }

    ghost function Acquired(): set<nat>
      reads this, slots
    {
      set s | s in activeBuffers && s < slots.Length && slots[s].acquired > 0
    }

    method CountActive() returns (dequeuedCount: nat, acquiredCount: nat)
      requires Below(activeBuffers, slots.Length)
      ensures dequeuedCount == |Dequeued()| && acquiredCount == |Acquired()|
    {
      ghost var dequeued, acquired := Dequeued(), Acquired();
      assert forall s :: s in activeBuffers ==> (s in dequeued <==> slots[s].dequeued > 0) && (s in acquired <==> slots[s].acquired > 0);
      hide Dequeued, Acquired;
      dequeuedCount, acquiredCount := 0, 0;
      var rest := activeBuffers;
      assert dequeued - rest == {} && acquired - rest == {};
      while rest != {}
        invariant rest <= activeBuffers
        invariant dequeuedCount == |dequeued - rest| && acquiredCount == |acquired - rest|
        decreases |rest|
      {
        var s := FirstMarked(rest);
        OneMoreCounted(dequeued, rest, s);
        OneMoreCounted(acquired, rest, s);
        rest := rest - {s};
        if slots[s].dequeued > 0 {
          dequeuedCount := dequeuedCount + 1;
        }
        if slots[s].acquired > 0 {
          acquiredCount := acquiredCount + 1;
        }
      }
      assert dequeued - rest == dequeued && acquired - rest == acquired;
    }

    ghost predicate CanAdjust(delta: int)
      reads this
    {
      if delta >= 0 then delta <= |unusedSlots| else -delta <= |freeSlots| + |freeBuffers|
    }

    ghost predicate CanDequeueUpTo(count: int)
      reads this, slots
    {
      && |Dequeued()| <= count && 1 <= count
      && MinUndequeuedBufferCount() + count <= NUM_BUFFER_SLOTS && MinUndequeuedBufferCount() + count <= maxBufferCount
      && CanAdjust(count - maxDequeuedBufferCount)
    }

    /** `setMaxDequeuedBufferCount`.  The slots in use stay as many as there may be buffers exactly when the
        limit on the buffers did not cut the count before. */
    method SetMaxDequeuedBufferCount(count: int) returns (status: Status)
      requires Valid()
      modifies this`maxDequeuedBufferCount, this`freeSlots, this`freeBuffers, this`unusedSlots, slots
      ensures Valid()
      ensures status == if isAllocating then MustWait
                        else if abandoned then NoInit
                        else if old(count == maxDequeuedBufferCount || CanDequeueUpTo(count)) then NoError else BadValue
      ensures maxDequeuedBufferCount == if status == NoError then count else old(maxDequeuedBufferCount)
      ensures status != NoError ==> slots[..] == old(slots[..]) && AllLists() == old(AllLists())
      ensures count >= old(maxDequeuedBufferCount) ==> old(freeSlots) <= freeSlots && freeBuffers == old(freeBuffers)
      ensures old(SlotsAreCounted()) ==>
                (SlotsAreCounted() <==>
                   status != NoError || count == old(maxDequeuedBufferCount)
                   || MinUndequeuedBufferCount() + old(maxDequeuedBufferCount) <= maxBufferCount)
    {
      hide Valid, Dequeued, Acquired;
      InFields();
      if isAllocating {
        return MustWait;
      }
      if abandoned {
        return NoInit;
      }
      if count == maxDequeuedBufferCount {
        return NoError;
      }
      var dequeuedCount, _ := CountActive();
      if dequeuedCount > count {
        return BadValue;
      }
      var bufferCount := MinUndequeuedBufferCount() + count;
      if bufferCount > NUM_BUFFER_SLOTS {
        return BadValue;
      }
      var minBufferSlots := MinUndequeuedBufferCount() + 1;
      if bufferCount < minBufferSlots {
        return BadValue;
      }
      if bufferCount > maxBufferCount {
        return BadValue;
      }
      var delta := count - maxDequeuedBufferCount;
      var ok := AdjustAvailableSlots(delta);
      if !ok {
        return BadValue;
      }
      maxDequeuedBufferCount := count;
      return NoError;
    }

    /** Adjusts the slots in use to what the new flags ask for. */
    method AdjustFor(async: bool, cannotBlock: bool) returns (ok: bool)
      requires Valid() && !abandoned
      modifies this`freeSlots, this`freeBuffers, this`unusedSlots, slots
      ensures Valid()
      ensures !ok ==> AllLists() == old(AllLists()) && slots[..] == old(slots[..])
      ensures ok == old(CanAdjust(MaxCountWith(async, cannotBlock) - MaxBufferCount()))
      ensures MaxCountWith(async, cannotBlock) == old(MaxBufferCount()) ==> AllLists() == old(AllLists()) && slots[..] == old(slots[..])
      ensures ok && old(SlotsAreCounted()) ==> |unusedSlots| + MaxCountWith(async, cannotBlock) == NUM_BUFFER_SLOTS
      ensures forall s :: s in activeBuffers ==> slots[s] == old(slots[s])
    {
      hide Valid, MaxBufferCountFor;
      ok := AdjustAvailableSlots(MaxCountWith(async, cannotBlock) - MaxBufferCount());
    }

    function MaxCountWith(async: bool, cannotBlock: bool): nat
      reads this`maxAcquiredBufferCount, this`maxDequeuedBufferCount, this`maxBufferCount
    {
      MaxBufferCountFor(maxAcquiredBufferCount, maxDequeuedBufferCount, async, cannotBlock, maxBufferCount)
    }

    /** All the buffers that producer and consumer may hold, and the one that asynchronous mode keeps aside. */
    predicate FitsWith(async: bool)
      reads this`maxAcquiredBufferCount, this`maxDequeuedBufferCount, this`dequeueBufferCannotBlock, this`maxBufferCount
    {
      maxAcquiredBufferCount + maxDequeuedBufferCount + (if async || dequeueBufferCannotBlock then 1 else 0) <= maxBufferCount
    }

    /** `setAsyncMode`. */
    method SetAsyncMode(async: bool) returns (status: Status)
      requires Valid()
      modifies this`asyncMode, this`freeSlots, this`freeBuffers, this`unusedSlots, slots
      ensures Valid() && (old(SlotsAreCounted()) ==> SlotsAreCounted())
      ensures status == if isAllocating then MustWait
                        else if abandoned then NoInit
                        else if old(async == asyncMode || (FitsWith(async) && CanAdjust(MaxCountWith(async, dequeueBufferCannotBlock) - MaxBufferCount())))
                          then NoError else BadValue
      ensures asyncMode == if status == NoError then async else old(asyncMode)
      ensures status != NoError || async == old(asyncMode) ==> AllLists() == old(AllLists()) && slots[..] == old(slots[..])
      ensures forall s :: s in activeBuffers ==> slots[s] == old(slots[s])
    {
      hide Valid, MaxBufferCountFor;
      InFields();
      if isAllocating {
        return MustWait;
      }
      if abandoned {
        return NoInit;
      }
      if async == asyncMode {
        return NoError;
      }
      if maxAcquiredBufferCount + maxDequeuedBufferCount + (if async || dequeueBufferCannotBlock then 1 else 0) > maxBufferCount {
        return BadValue;
      }
      var ok := AdjustFor(async, dequeueBufferCannotBlock);
      if !ok {
        return BadValue;
      }
      asyncMode := async;
      return NoError;
    }

    // ----- finding a slot -----

    /** `getFreeBufferLocked`. */
    method GetFreeBuffer() returns (slot: Option<nat>)
      modifies this`freeBuffers
      ensures slot == if old(freeBuffers) == [] then None else Some(old(freeBuffers[0]))
      ensures freeBuffers == if old(freeBuffers) == [] then [] else old(freeBuffers[1..])
    {
      if freeBuffers == [] {
        return None;
      }
      slot := Some(freeBuffers[0]);
      freeBuffers := freeBuffers[1..];
    }

    /** `getFreeSlotLocked`. */
    method GetFreeSlot() returns (slot: Option<nat>)
      modifies this`freeSlots
      ensures slot == if old(freeSlots) == {} then None else Some(FirstMarked(old(freeSlots)))
      ensures freeSlots == if old(freeSlots) == {} then {} else old(freeSlots) - {FirstMarked(old(freeSlots))}
    {
      if freeSlots == {} {
        return None;
      }
      slot := Some(FirstMarked(freeSlots));
      freeSlots := freeSlots - {slot.value};
    }

    /** Where the next slot comes from: dequeuing prefers a free buffer, attaching a free slot. */
    ghost function Choose(forDequeue: bool): Source
      reads this
    {
      if |queue| > MaxBufferCount() then Nowhere
      else if sharedBufferMode && sharedBufferSlot.Some? then TheShared
      else if forDequeue then
        if freeBuffers != [] then FreeBuffer else if allowAllocation && freeSlots != {} then FreeSlot else Nowhere
      else
        if freeSlots != {} then FreeSlot else if freeBuffers != [] then FreeBuffer else Nowhere
    }

    /** The producer has as many buffers as it may have. */
    ghost predicate AtDequeueLimit()
      reads this, slots
    {
      bufferHasBeenQueued && |Dequeued()| >= maxDequeuedBufferCount
    }

    ghost function WaitOutcome(forDequeue: bool): Status
      reads this, slots
    {
      if abandoned then NoInit
      else if AtDequeueLimit() then InvalidOperation
      else if Choose(forDequeue) != Nowhere then NoError
      else if (dequeueBufferCannotBlock || asyncMode) && |Acquired()| <= maxAcquiredBufferCount then WouldBlock
      else MustWait
    }

    /** `waitForFreeSlotThenRelock`.  A slot that is found is taken out of its list. */
    method WaitForFreeSlot(forDequeue: bool) returns (status: Status, found: nat)
      requires Valid()
      modifies this`freeSlots, this`freeBuffers
      ensures status == old(WaitOutcome(forDequeue))
      ensures status != NoError ==> AllLists() == old(AllLists())
      ensures status == NoError ==> match old(Choose(forDequeue))
        case TheShared => AllLists() == old(AllLists()) && Some(found) == sharedBufferSlot
        case FreeBuffer => AllLists() == old(AllLists()).(freeBuffers := old(freeBuffers[1..])) && found == old(freeBuffers[0])
        case FreeSlot => AllLists() == old(AllLists()).(freeSlots := old(freeSlots) - {found}) && found == FirstMarked(old(freeSlots))
    {
      hide Valid, Dequeued, Acquired;
      InFields();
      if abandoned {
        return NoInit, 0;
      }
      var dequeuedCount, acquiredCount := CountActive();
      if bufferHasBeenQueued && dequeuedCount >= maxDequeuedBufferCount {
        return InvalidOperation, 0;
      }
      var slot: Option<nat> := None;
      var tooManyBuffers := |queue| > MaxBufferCount();
      if !tooManyBuffers {
        if sharedBufferMode && sharedBufferSlot.Some? {
          slot := sharedBufferSlot;
        } else if forDequeue {
          slot := GetFreeBuffer();
          if slot == None && allowAllocation {
            slot := GetFreeSlot();
          }
        } else {
          slot := GetFreeSlot();
          if slot == None {
            slot := GetFreeBuffer();
          }
        }
      }
      if slot == None {
        if (dequeueBufferCannotBlock || asyncMode) && acquiredCount <= maxAcquiredBufferCount {
          return WouldBlock, 0;
        }
        return MustWait, 0;
      }
      return NoError, slot.value;
    }

    /** Slot `found` was taken out of its list, or it is the shared one; `c` is the state before. */
    ghost predicate Taken(c: Core, found: nat)
      reads this, slots
    {
      c.Takes(AllLists(), found) && Now() == c.(lists := AllLists())
    }

    lemma WhatIsTaken(c: Core, found: nat)
      requires Taken(c, found)
      ensures found < slots.Length == NUM_BUFFER_SLOTS && slots[found].frameNumber <= frameCounter && !abandoned
      ensures c.slots == slots[..] && c.lists.active == activeBuffers
      ensures found in activeBuffers <==> sharedBufferSlot == Some(found)
      ensures found in c.lists.freeBuffers ==> slots[found].buffer.Some?
      ensures found in c.lists.freeBuffers || found in c.lists.freeSlots ==> found !in activeBuffers
      ensures found in c.lists.freeBuffers || found in activeBuffers ==> found !in c.lists.freeSlots
      ensures found !in activeBuffers ==> slots[found].IsFree() && !slots[found].shared
      ensures sharedBufferSlot.Some? ==> sharedBufferMode
    {
      hide Core.Fit;
      WhatTakes(c, AllLists(), found);
    }

    /** `waitForFreeSlotThenRelock` for a caller that goes on with the slot. */
    method TakeSlot(forDequeue: bool) returns (status: Status, found: nat)
      requires Valid()
      modifies this`freeSlots, this`freeBuffers
      ensures status == old(WaitOutcome(forDequeue))
      ensures status != NoError ==> Valid() && AllLists() == old(AllLists())
      ensures status == NoError ==> Taken(old(Now()), found)
      ensures status == NoError ==> match old(Choose(forDequeue))
        case TheShared => Valid() && AllLists() == old(AllLists()) && Some(found) == sharedBufferSlot
        case FreeBuffer => AllLists() == old(AllLists()).(freeBuffers := old(freeBuffers[1..])) && found == old(freeBuffers[0])
                           && forall s :: s in freeBuffers <==> s in old(freeBuffers) && s != found
        case FreeSlot => AllLists() == old(AllLists()).(freeSlots := old(freeSlots) - {found}) && found == FirstMarked(old(freeSlots))
    {
      hide Core.Fit, Core.Takes, Dequeued, Acquired, MaxBufferCountFor, SlotsOf;
      ghost var c, source := Now(), Choose(forDequeue);
      status, found := WaitForFreeSlot(forDequeue);
      if status == NoError {
        match source {
          case TheShared => SharedTakes(c);
          case FreeBuffer => FreeBufferTakes(c);
          case FreeSlot => FreeSlotTakes(c, found);
        }
      }
    }

    // ----- dequeue -----

    /** `requestBuffer`.  A producer that names a slot before its buffer has been allocated gets none. */
    method RequestBuffer(slot: int) returns (status: Status, buffer: Option<Buffer>)
      requires Valid()
      modifies slots
      ensures Valid()
      ensures status == if abandoned || !connected then NoInit
                        else if 0 <= slot < NUM_BUFFER_SLOTS && old(slots[slot].dequeued > 0) then NoError else BadValue
      ensures status == NoError ==> buffer == slots[slot].buffer && (buffer == None ==> slot in allocating)
                                    && slots[..] == old(slots[..])[slot := old(slots[slot]).(requested := true)]
      ensures status != NoError ==> slots[..] == old(slots[..])
    {
      hide Core.Fit;
      InFields();
      if abandoned || !connected {
        return NoInit, None;
      }
      if slot < 0 || slot >= NUM_BUFFER_SLOTS {
        return BadValue, None;
      }
      if slots[slot].dequeued == 0 {
        return BadValue, None;
      }
      ghost var c := Now();
      SlotFits(c, slot);
      ChangedFits(c, slot, slots[slot].(requested := true));
      slots[slot] := slots[slot].(requested := true);
      return NoError, slots[slot].buffer;
    }

    /** The attributes after defaults and consumer usage have been filled in. */
    function Wanted(width: nat, height: nat, format: nat, usage: set<nat>): Attributes {
      Attributes(if width == 0 && height == 0 then defaults.width else width,
                 if width == 0 && height == 0 then defaults.height else height,
                 if format == 0 then defaults.format else format, usage + defaults.usage)
    }

    /** The slot goes to the producer: it is active, dequeued once more, and its buffer is as wanted or still
        to be allocated. */
    ghost predicate Handed(slot: nat, wanted: Attributes, needsAllocation: bool)
      reads this, slots
    {
      && slot < slots.Length && slot in activeBuffers && slots[slot].dequeued > 0
      && (needsAllocation ==> slot in allocating)
      && (needsAllocation <==> slots[slot].buffer == None)
      && (!needsAllocation ==> !slots[slot].buffer.value.NeedsReallocation(wanted))
    }

    /** In shared buffer mode the first buffer to be dequeued or queued becomes the shared one. */
    predicate BecomesShared()
      reads this`sharedBufferMode, this`sharedBufferSlot
    {
      sharedBufferMode && sharedBufferSlot == None
    }

    /** What a call finds that has waited long enough: which slot, or why none.  The shared slot is looked
        into without asking whether it has a buffer. */
    ghost function DequeueOutcome(wanted: Attributes): (Status, Option<nat>)
      reads this, slots
    {
      var none := if (dequeueBufferCannotBlock || asyncMode) && |Acquired()| <= maxAcquiredBufferCount then WouldBlock else MustWait;
      if abandoned then (NoInit, None)
      else if AtDequeueLimit() then (InvalidOperation, None)
      else if |queue| > MaxBufferCount() then (none, None)
      else if sharedBufferMode && sharedBufferSlot.Some? then
        if sharedBufferSlot.value >= slots.Length then (NoError, None)
        else if slots[sharedBufferSlot.value].buffer == None then (NullBuffer, None)
        else if slots[sharedBufferSlot.value].NeedsAllocation(wanted) then (BadValue, None)
        else (NoError, sharedBufferSlot)
      else if allowAllocation then
        if freeBuffers != [] then (NoError, Some(freeBuffers[0]))
        else if freeSlots != {} then (NoError, Some(FirstMarked(freeSlots)))
        else (none, None)
      else
        var fitting := FirstFitting(slots[..], freeBuffers, wanted);
        (if fitting.Some? then NoError else none, fitting)
    }

    /** The slot went to the producer; its buffer is as wanted or will be allocated so. */
    twostate predicate HandedOver(slot: nat, wanted: Attributes, needsAllocation: bool, attached: bool, age: nat)
      reads this, slots
    {
      && slot < slots.Length && Handed(slot, wanted, needsAllocation)
      && needsAllocation == old(slots[slot]).NeedsAllocation(wanted)
      && slots[slot] == HandedSlot(old(slots[slot]), wanted, old(BecomesShared()))
      && activeBuffers == old(activeBuffers) + {slot}
      && allocating == old(allocating) + (if needsAllocation then multiset{slot} else multiset{})
      && sharedBufferSlot == (if old(BecomesShared()) then Some(slot) else old(sharedBufferSlot))
      && attached == old(slots[slot].needsReallocation)
      && old(slots[slot].frameNumber) <= frameCounter
      && age == (if needsAllocation then 0 else frameCounter + 1 - old(slots[slot].frameNumber))
      && isAllocating == (old(isAllocating) || needsAllocation)
      && (allowAllocation ==>
            && freeBuffers == (if slot in old(freeBuffers) then old(freeBuffers)[1..] else old(freeBuffers))
            && freeSlots == old(freeSlots) - {slot}
            && forall s :: 0 <= s < slots.Length && s != slot ==> slots[s] == old(slots[s]))
    }

    /** One turn of the loop in `dequeueBuffer`.  A free buffer that is not as wanted and may not be
        replaced is given up, and the search goes on. */
    method TryDequeue(wanted: Attributes) returns (status: Status, again: bool, found: nat, needsAllocation: bool, attached: bool, age: nat)
      requires Valid()
      modifies this`freeSlots, this`freeBuffers, this`activeBuffers, this`sharedBufferSlot, this`isAllocating, this`allocating, slots
      ensures Valid()
      ensures again ==>
                && status == NoError && !allowAllocation && !old(AtDequeueLimit()) && |queue| <= MaxBufferCount()
                && !(sharedBufferMode && sharedBufferSlot.Some?)
                && old(freeBuffers) != [] && found == old(freeBuffers[0]) && found !in activeBuffers && found !in freeBuffers
                && AllLists() == old(AllLists()).(freeBuffers := old(freeBuffers[1..]), freeSlots := old(freeSlots) + {found})
                && found < slots.Length && old(slots[..])[found].NeedsAllocation(wanted)
                && slots[..] == old(slots[..])[found := old(slots[..])[found].Clear()]
      ensures again || status != NoError ==> sharedBufferSlot == old(sharedBufferSlot) && allocating == old(allocating) && isAllocating == old(isAllocating)
      ensures !again ==> status == old(DequeueOutcome(wanted)).0
      ensures status != NoError ==> AllLists() == old(AllLists()) && slots[..] == old(slots[..])
      ensures status == NoError && !again ==>
                && HandedOver(found, wanted, needsAllocation, attached, age)
                && Some(found) == old(DequeueOutcome(wanted)).1
                && slots[..] == old(slots[..])[found := slots[found]]
                && freeSlots == (if found in old(freeSlots) then old(freeSlots) - {found} else old(freeSlots))
                && forall s :: s != found ==> (s in freeBuffers <==> s in old(freeBuffers))
    {
      hide Valid, Taken, Dequeued, Acquired, HandedSlot, MaxBufferCountFor;
      ghost var c := Now();
      InFields();
      again, needsAllocation, attached, age := false, false, false, 0;
      status, found := TakeSlot(true);
      if status != NoError {
        return;
      }
      WhatIsTaken(c, found);
      var buffer := slots[found].buffer;
      if (!allowAllocation || sharedBufferSlot == Some(found)) && buffer == None {
        status := NullBuffer;
        return;
      }
      if !allowAllocation && buffer.value.NeedsReallocation(wanted) {
        if sharedBufferSlot == Some(found) {
          status := BadValue;
          return;
        }
        GiveUpBuffer(found, c);
        again := true;
      } else if sharedBufferSlot == Some(found) && buffer.value.NeedsReallocation(wanted) {
        status := BadValue;
        return;
      } else {
        needsAllocation, attached, age := HandOut(found, wanted, c);
      }
    }

    /** A free buffer that is not as wanted becomes a free slot. */
    method GiveUpBuffer(found: nat, ghost c: Core)
      requires Taken(c, found) && found in c.lists.freeBuffers
      modifies this`freeSlots, slots
      ensures Valid() && freeSlots == old(freeSlots) + {found}
      ensures slots[..] == old(slots[..])[found := old(slots[..])[found].Clear()]
    {
      hide Core.Fit;
      BufferGivenUpFits(c, AllLists(), found);
      freeSlots := freeSlots + {found};
      ClearBufferSlot(found);
    }

    /** The last part of `dequeueBuffer` under the lock: the slot goes to the producer. */
    method HandOut(found: nat, wanted: Attributes, ghost c: Core) returns (needsAllocation: bool, attached: bool, age: nat)
      requires Taken(c, found)
      requires found in activeBuffers ==> !slots[found].NeedsAllocation(wanted)
      modifies this`activeBuffers, this`sharedBufferSlot, this`isAllocating, this`allocating, slots
      ensures Valid() && Handed(found, wanted, needsAllocation) && needsAllocation == old(slots[found]).NeedsAllocation(wanted)
      ensures isAllocating == (old(isAllocating) || needsAllocation)
      ensures activeBuffers == old(activeBuffers) + {found} && allocating == old(allocating) + if needsAllocation then multiset{found} else multiset{}
      ensures sharedBufferSlot == if old(BecomesShared()) then Some(found) else old(sharedBufferSlot)
      ensures age == if needsAllocation then 0 else frameCounter + 1 - old(slots[found].frameNumber)
      ensures attached == old(slots[found].needsReallocation)
      ensures slots[..] == old(slots[..])[found := HandedSlot(old(slots[found]), wanted, old(BecomesShared()))]
    {
      hide Core.Fit, Core.Takes, SlotsOf, HandedSlot, Buffer.NeedsReallocation;
      WhatIsTaken(c, found);
      HandedIs(slots[found], wanted, BecomesShared());
      HandedFits(c, AllLists(), found, wanted);
      OneMoreAllocation(allocating, found);
      ghost var rest, shares := AllLists(), BecomesShared();
      needsAllocation, attached, age := GiveToProducer(found, wanted);
      assert needsAllocation || (allocating == old(allocating) && rest.allocating + {} == rest.allocating);
      assert AllLists() == HandedLists(rest, found, needsAllocation);
      assert Now() == c.With(found, HandedSlot(c.slots[found], wanted, shares), AllLists()).(sharedSlot := if shares then Some(found) else c.sharedSlot);
    }

    /** The slot as the producer gets it. */
    method GiveToProducer(found: nat, wanted: Attributes) returns (needsAllocation: bool, attached: bool, age: nat)
      requires found < slots.Length && slots[found].frameNumber <= frameCounter && (found in activeBuffers <==> sharedBufferSlot == Some(found))
      modifies this`activeBuffers, this`sharedBufferSlot, this`isAllocating, this`allocating, slots
      ensures needsAllocation == old(slots[found]).NeedsAllocation(wanted)
      ensures isAllocating == (old(isAllocating) || needsAllocation)
      ensures activeBuffers == old(activeBuffers) + {found} && allocating == old(allocating) + if needsAllocation then multiset{found} else multiset{}
      ensures sharedBufferSlot == if old(BecomesShared()) then Some(found) else old(sharedBufferSlot)
      ensures age == if needsAllocation then 0 else frameCounter + 1 - old(slots[found].frameNumber)
      ensures attached == old(slots[found].needsReallocation)
      ensures slots[..] == old(slots[..])[found := HandedSlot(old(slots[found]), wanted, old(BecomesShared()))]
    {
      needsAllocation, age := false, 0;
      if sharedBufferSlot != Some(found) {
        activeBuffers := activeBuffers + {found};
      }
      attached := slots[found].needsReallocation;
      var slot := slots[found].Dequeue().(needsReallocation := false);
      if slot.NeedsAllocation(wanted) {
        slot := slot.(buffer := None, requested := false);
        isAllocating := true;
        allocating := allocating + multiset{found};
        needsAllocation := true;
      } else {
        age := frameCounter + 1 - slot.frameNumber;
      }
      if sharedBufferMode && sharedBufferSlot == None {
        sharedBufferSlot := Some(found);
        slot := slot.(shared := true);
      }
      slots[found] := slot;
    }

    twostate lemma ActiveUnchanged()
      requires activeBuffers == old(activeBuffers) && Below(activeBuffers, slots.Length)
      requires forall s :: s in activeBuffers ==> slots[s] == old(slots[s])
      ensures Dequeued() == old(Dequeued()) && Acquired() == old(Acquired())
    {
    }

    /** Giving up an unfitting buffer does not change what the search will find. */
    twostate lemma OutcomeUnchanged(wanted: Attributes)
      requires old(freeBuffers) != [] && freeBuffers == old(freeBuffers[1..]) && !allowAllocation && old(!allowAllocation)
      requires old(freeBuffers[0]) < slots.Length && old(slots[..])[old(freeBuffers[0])].NeedsAllocation(wanted)
      requires forall s :: 0 <= s < slots.Length && s in freeBuffers ==> slots[s] == old(slots[s])
      requires AtDequeueLimit() == old(AtDequeueLimit()) && Acquired() == old(Acquired())
      requires unchanged(`abandoned, `queue, `sharedBufferMode, `sharedBufferSlot, `dequeueBufferCannotBlock, `asyncMode, `maxAcquiredBufferCount,
                         `maxDequeuedBufferCount, `maxBufferCount)
      requires !(sharedBufferMode && sharedBufferSlot.Some?)
      ensures DequeueOutcome(wanted) == old(DequeueOutcome(wanted))
    {
      hide Dequeued, Acquired, MaxBufferCountFor, AtDequeueLimit;
      FittingDependsOnListed(old(slots[..]), slots[..], freeBuffers, wanted);
    }

    lemma OutcomeIsListed(wanted: Attributes)
      requires Valid()
      ensures var found := DequeueOutcome(wanted).1;
              found.Some? ==> found.value in freeBuffers || found.value in activeBuffers || allowAllocation
    {
      InFields();
      FittingIsListed(slots[..], freeBuffers, wanted);
    }

    /** The search so far has only given up free buffers that may not be replaced. */
    twostate predicate Searched()
      reads this, slots
    {
      && allocating == old(allocating) && sharedBufferSlot == old(sharedBufferSlot) && activeBuffers == old(activeBuffers)
      && isAllocating == old(isAllocating) && (allowAllocation ==> freeBuffers == old(freeBuffers) && freeSlots == old(freeSlots))
      && (forall s :: 0 <= s < slots.Length && (s in activeBuffers || s in freeBuffers || allowAllocation) ==> slots[s] == old(slots[s]))
      && (forall s :: s in freeBuffers ==> s in old(freeBuffers))
      && (forall s :: s in old(freeBuffers) && s !in freeBuffers ==> s in freeSlots && !allowAllocation)
    }

    /** The loop of `dequeueBuffer` and what follows it under the lock. */
    method DequeueWanted(wanted: Attributes) returns (status: Status, slot: nat, needsAllocation: bool, attached: bool, age: nat)
      requires Valid()
      modifies this`freeSlots, this`freeBuffers, this`activeBuffers, this`sharedBufferSlot, this`isAllocating, this`allocating, slots
      ensures Valid()
      ensures status == old(DequeueOutcome(wanted)).0
      ensures if status == NoError then
                Some(slot) == old(DequeueOutcome(wanted)).1 && HandedOver(slot, wanted, needsAllocation, attached, age)
                && forall s :: s in old(activeBuffers) && s != slot ==> s < slots.Length && slots[s] == old(slots[s])
              else Searched()
    {
      hide Valid, Dequeued, Acquired, HandedSlot, DequeueOutcome, Handed, SlotsOf;
      while true
        invariant Valid() && Searched() && DequeueOutcome(wanted) == old(DequeueOutcome(wanted))
        decreases |freeBuffers|
      {
        InFields();
        var again: bool;
        status, again, slot, needsAllocation, attached, age := TryOnce(wanted);
        if !again {
          return;
        }
      }
    }

    /** One turn of the loop, and what it means for the search as a whole. */
    method TryOnce(wanted: Attributes) returns (status: Status, again: bool, slot: nat, needsAllocation: bool, attached: bool, age: nat)
      requires Valid()
      modifies this`freeSlots, this`freeBuffers, this`activeBuffers, this`sharedBufferSlot, this`isAllocating, this`allocating, slots
      ensures Valid()
      ensures again ==> Searched() && DequeueOutcome(wanted) == old(DequeueOutcome(wanted)) && |freeBuffers| < old(|freeBuffers|)
      ensures !again ==> status == old(DequeueOutcome(wanted)).0
      ensures again || status != NoError ==> old(freeSlots) <= freeSlots
      ensures !again && status != NoError ==> Searched()
      ensures !again && status == NoError ==>
                && Some(slot) == old(DequeueOutcome(wanted)).1 && HandedOver(slot, wanted, needsAllocation, attached, age)
                && (slot in old(freeBuffers) || slot in old(activeBuffers) || allowAllocation)
                && forall s :: 0 <= s < slots.Length && s != slot ==> slots[s] == old(slots[s])
    {
      hide Valid, Dequeued, Acquired, DequeueOutcome, HandedOver, SlotsOf, MaxBufferCountFor;
      InFields();
      OutcomeIsListed(wanted);
      status, again, slot, needsAllocation, attached, age := TryDequeue(wanted);
      if again {
        ActiveUnchanged();
        OutcomeUnchanged(wanted);
      } else if status == NoError {
        assert forall s :: 0 <= s < slots.Length && s != slot ==> slots[..][s] == old(slots[..])[s];
      }
    }

    /** `dequeueBuffer` up to the allocation.  `MustWait` stands for both places where the source waits. */
    method DequeueBuffer(width: nat, height: nat, format: nat, usage: set<nat>)
      returns (status: Status, slot: nat, needsAllocation: bool, attached: bool, age: nat)
      requires Valid()
      modifies this`freeSlots, this`freeBuffers, this`activeBuffers, this`sharedBufferSlot, this`isAllocating, this`allocating, slots
      ensures Valid()
      ensures status == if abandoned || !connected then NoInit
                        else if (width == 0) != (height == 0) then BadValue
                        else if old(freeBuffers == [] && isAllocating) then MustWait
                        else old(DequeueOutcome(Wanted(width, height, format, usage))).0
      ensures status == NoError ==>
                && Some(slot) == old(DequeueOutcome(Wanted(width, height, format, usage))).1
                && HandedOver(slot, Wanted(width, height, format, usage), needsAllocation, attached, age)
                && forall s :: s in old(activeBuffers) && s != slot ==> s < slots.Length && slots[s] == old(slots[s])
      ensures status == NoError ==>
                var w := Wanted(width, height, format, usage);
                && slot < slots.Length
                && (needsAllocation <==> !AsWanted(old(slots[slot]).buffer, w.width, w.height, w.format, w.usage))
                && slots[slot].dequeued == old(slots[slot]).dequeued + 1
                && slots[slot].buffer == (if needsAllocation then None else old(slots[slot]).buffer)
                && slots[slot].requested == (!needsAllocation && old(slots[slot]).requested)
                && age == if needsAllocation then 0 else frameCounter + 1 - old(slots[slot]).frameNumber
      ensures status != NoError ==> Searched()
    {
      hide Valid, DequeueOutcome, HandedSlot, Handed, Wanted, SlotsOf, AsWanted, Slot.NeedsAllocation;
      if abandoned || !connected {
        return NoInit, 0, false, false, 0;
      }
      if (width == 0) != (height == 0) {
        return BadValue, 0, false, false, 0;
      }
      if freeBuffers == [] && isAllocating {
        return MustWait, 0, false, false, 0;
      }
      status, slot, needsAllocation, attached, age := DequeueWanted(Wanted(width, height, format, usage));
      if status == NoError {
        NeedsIff(old(slots[slot]), Wanted(width, height, format, usage));
        HandedPlainly(old(slots[slot]), Wanted(width, height, format, usage), old(BecomesShared()));
      }
    }

    lemma WantedIs(width: nat, height: nat, format: nat, usage: set<nat>)
      requires width == 0 <==> height == 0
      ensures var w := Wanted(width, height, format, usage);
              && w.width == (if width == 0 then defaults.width else width) && w.height == (if height == 0 then defaults.height else height)
              && w.format == (if format == 0 then defaults.format else format) && w.usage == usage + defaults.usage
    {
    }

    /** The end of `dequeueBuffer` when a buffer had to be allocated.  It does not look at what has become of
        the slot meanwhile.  A buffer that was allocated goes to the slot, which keeps the slots partitioned
        exactly if the slot is still active or a free buffer; a failed allocation, or one for an abandoned
        queue, puts it among the free slots, which does so exactly if it is there already. */
    method FinishDequeue(slot: nat, wanted: Attributes, succeeded: bool) returns (status: Status)
      requires Valid() && slot in allocating
      modifies this`freeSlots, this`isAllocating, this`allocating, slots
      ensures status == if !succeeded then AllocationFailed else if abandoned then NoInit else NoError
      ensures Valid() <==> if status == NoError then slot in activeBuffers || slot in freeBuffers else slot in old(freeSlots)
      ensures !isAllocating && allocating == old(allocating) - multiset{slot}
      ensures slot < slots.Length
      ensures if status == NoError
              then freeSlots == old(freeSlots)
                   && slots[..] == old(slots[..])[slot := old(slots[..])[slot].(buffer := Some(Buffer(wanted, generationNumber)))]
              else freeSlots == old(freeSlots) + {slot} && slots[..] == old(slots[..])[slot := old(slots[..])[slot].Clear()]
      ensures status == NoError && slot in activeBuffers && slots[slot].dequeued > 0 ==> Handed(slot, wanted, false)
    {
      hide Core.Fit, Handed, SlotsOf;
      ghost var c := Now();
      OneLessAllocation(allocating, slot);
      InFields();
      FinishedFits(c, slot, if succeeded && !abandoned then Some(Buffer(wanted, generationNumber)) else None, SlotsOf(allocating - multiset{slot}));
      if succeeded && !abandoned {
        slots[slot] := slots[slot].(buffer := Some(Buffer(wanted, generationNumber)));
      }
      isAllocating := false;
      allocating := allocating - multiset{slot};
      if !succeeded || abandoned {
        freeSlots := freeSlots + {slot};
        ClearBufferSlot(slot);
        status := if !succeeded then AllocationFailed else NoInit;
      } else {
        status := NoError;
        FinishedIsHanded(slot, wanted);
      }
    }

    lemma FinishedIsHanded(slot: nat, wanted: Attributes)
      requires slot < slots.Length && slots[slot].buffer.Some? && slots[slot].buffer.value.attributes == wanted
      ensures slot in activeBuffers && slots[slot].dequeued > 0 ==> Handed(slot, wanted, false)
    {
    }

    // ----- cancel, detach and attach -----

    ghost predicate OwnedByProducer(slot: int)
      reads slots
    {
      0 <= slot < NUM_BUFFER_SLOTS <= slots.Length && slots[slot].dequeued > 0
    }

    /** The slot was given back by one of its owners: unless it is still shared it becomes a free buffer, which is
        right if it has one. */
    method GiveBack(s: nat, slot: Slot)
      requires Valid() && s in activeBuffers && s < slots.Length && slot.queued == slots[s].queued
      requires slot.buffer == slots[s].buffer && slot.shared == slots[s].shared && slot.frameNumber == slots[s].frameNumber
      requires slot.shared || slot.IsFree()
      modifies this`activeBuffers, this`freeBuffers, slots
      ensures Valid() <==> GivenBack(slot, sharedBufferMode).shared || slot.buffer.Some?
      ensures slots[..] == old(slots[..])[s := GivenBack(slot, sharedBufferMode)]
      ensures activeBuffers == if GivenBack(slot, sharedBufferMode).shared then old(activeBuffers) else old(activeBuffers) - {s}
      ensures freeBuffers == if GivenBack(slot, sharedBufferMode).shared then old(freeBuffers) else old(freeBuffers) + [s]
    {
      hide Core.Fit, SlotsOf;
      ghost var c := Now();
      GivenBackFits(c, s, slot);
      slots[s] := slot;
      if !sharedBufferMode && slots[s].IsFree() {
        slots[s] := slots[s].(shared := false);
      }
      if !slots[s].shared {
        activeBuffers := activeBuffers - {s};
        freeBuffers := freeBuffers + [s];
      }
      assert slots[..] == c.slots[s := GivenBack(slot, sharedBufferMode)];
      assert Now() == c.With(s, GivenBack(slot, c.sharedMode), GivenBackLists(c.lists, s, GivenBack(slot, c.sharedMode)));
    }

    /** `cancelBuffer`.  A slot that is cancelled while its buffer is still being allocated becomes a free buffer
        without a buffer. */
    method CancelBuffer(slot: int, hasFence: bool) returns (status: Status)
      requires Valid()
      modifies this`activeBuffers, this`freeBuffers, slots
      ensures Valid() <==> (status == NoError ==> 0 <= slot < slots.Length && (slots[slot].shared || slots[slot].buffer.Some?))
      ensures status == if abandoned || !connected then NoInit
                        else if !sharedBufferMode && old(OwnedByProducer(slot)) && hasFence then NoError else BadValue
      ensures status != NoError ==> AllLists() == old(AllLists()) && slots[..] == old(slots[..])
      ensures status == NoError ==>
                && slots[..] == old(slots[..])[slot := GivenBack(old(slots[slot]).Cancel(), false)]
                && (if slots[slot].shared then AllLists() == old(AllLists())
                    else activeBuffers == old(activeBuffers) - {slot} && freeBuffers == old(freeBuffers) + [slot])
    {
      hide Core.Fit;
      InFields();
      if abandoned || !connected {
        return NoInit;
      }
      if sharedBufferMode {
        return BadValue;
      }
      if slot < 0 || slot >= NUM_BUFFER_SLOTS {
        return BadValue;
      }
      if slots[slot].dequeued == 0 {
        return BadValue;
      }
      if !hasFence {
        return BadValue;
      }
      SlotFits(Now(), slot);
      GiveBack(slot, slots[slot].Cancel());
      return NoError;
    }

    /** `detachBuffer`.  A slot that is left over from shared buffer mode can be dequeued and queued at once;
        detaching it forgets its items in the queue, so the queue stays counted in the slots exactly when
        the slot is not queued. */
    method DetachBuffer(slot: int) returns (status: Status)
      requires Valid()
      modifies this`activeBuffers, this`freeSlots, slots
      ensures status == if abandoned || !connected then NoInit
                        else if !sharedBufferMode && old(OwnedByProducer(slot) && slots[slot].requested) then NoError else BadValue
      ensures status != NoError ==> Valid() && AllLists() == old(AllLists()) && slots[..] == old(slots[..])
      ensures status == NoError ==>
                && (Valid() <==> old(slots[slot].queued) == 0)
                && activeBuffers == old(activeBuffers) - {slot} && freeSlots == old(freeSlots) + {slot}
                && slots[..] == old(slots[..])[slot := old(slots[slot]).Clear()]
    {
      hide Core.Fit;
      ghost var c := Now();
      InFields();
      if abandoned || !connected {
        return NoInit;
      }
      if sharedBufferMode || sharedBufferSlot == Some(slot) {
        return BadValue;
      }
      if slot < 0 || slot >= NUM_BUFFER_SLOTS {
        return BadValue;
      }
      SlotFits(c, slot);
      if slots[slot].dequeued == 0 {
        return BadValue;
      }
      if !slots[slot].requested {
        return BadValue;
      }
      DetachedFits(c, slot);
      activeBuffers := activeBuffers - {slot};
      freeSlots := freeSlots + {slot};
      ClearBufferSlot(slot);
      return NoError;
    }

    /** `detachNextBuffer`. */
    method DetachNextBuffer() returns (status: Status, buffer: Option<Buffer>)
      requires Valid()
      modifies this`freeBuffers, this`freeSlots, slots
      ensures Valid()
      ensures status == if abandoned || !connected then NoInit
                        else if sharedBufferMode then BadValue
                        else if isAllocating then MustWait
                        else if old(freeBuffers) == [] then NoMemory else NoError
      ensures status != NoError ==> AllLists() == old(AllLists()) && slots[..] == old(slots[..])
      ensures status == NoError ==> old(freeBuffers) != [] && Detached(old(freeBuffers[0]), buffer)
    {
      hide Valid, Detached, SlotsOf;
      if abandoned || !connected {
        return NoInit, None;
      }
      if sharedBufferMode {
        return BadValue, None;
      }
      status, buffer := DetachFirst();
    }

    /** The buffer went to the caller, and its slot is a free slot. */
    twostate predicate Detached(found: nat, new buffer: Option<Buffer>)
      reads this, slots
    {
      && old(freeBuffers) != [] && freeBuffers == old(freeBuffers[1..]) && freeSlots == old(freeSlots) + {found}
      && found < slots.Length && slots[..] == old(slots[..])[found := old(slots[..])[found].Clear()]
      && buffer == old(slots[..])[found].buffer && buffer.Some?
    }

    /** The part of `detachNextBuffer` from the wait on; it does not look at the mode again. */
    method DetachFirst() returns (status: Status, buffer: Option<Buffer>)
      requires Valid()
      modifies this`freeBuffers, this`freeSlots, slots
      ensures Valid()
      ensures status == if isAllocating then MustWait else if old(freeBuffers) == [] then NoMemory else NoError
      ensures status != NoError ==> AllLists() == old(AllLists()) && slots[..] == old(slots[..])
      ensures status == NoError ==> old(freeBuffers) != [] && Detached(old(freeBuffers[0]), buffer)
    {
      hide Core.Fit;
      if isAllocating {
        return MustWait, None;
      }
      if freeBuffers == [] {
        return NoMemory, None;
      }
      FirstDetachedFits(Now());
      var found := freeBuffers[0];
      freeBuffers := freeBuffers[1..];
      freeSlots := freeSlots + {found};
      buffer := slots[found].buffer;
      ClearBufferSlot(found);
      return NoError, buffer;
    }

    /** `attachBuffer`. */
    method AttachBuffer(buffer: Option<Buffer>) returns (status: Status, slot: nat)
      requires Valid()
      modifies this`freeSlots, this`freeBuffers, this`activeBuffers, slots
      ensures Valid()
      ensures status == if buffer == None then BadValue
                        else if abandoned || !connected then NoInit
                        else if sharedBufferMode || buffer.value.generation != generationNumber then BadValue
                        else if isAllocating then MustWait
                        else old(WaitOutcome(false))
      ensures status != NoError ==> AllLists() == old(AllLists()) && slots[..] == old(slots[..])
      ensures status == NoError ==> slot < slots.Length && slot in activeBuffers && slots[slot].buffer == buffer
                                    && slots[slot].requested && slots[slot].OutstandingOnce() && slots[slot].dequeued == 1
      ensures status == NoError ==>
                && slot !in old(activeBuffers) && activeBuffers == old(activeBuffers) + {slot}
                && slots[..] == old(slots[..])[slot := slots[slot]]
                && if old(freeSlots) != {} then slot == FirstMarked(old(freeSlots)) && freeSlots == old(freeSlots) - {slot}
                   else old(freeBuffers) != [] && slot == old(freeBuffers[0]) && freeBuffers == old(freeBuffers[1..])
    {
      hide Valid, Dequeued, Acquired;
      InFields();
      if buffer == None {
        return BadValue, 0;
      }
      if abandoned || !connected {
        return NoInit, 0;
      }
      if sharedBufferMode {
        return BadValue, 0;
      }
      if buffer.value.generation != generationNumber {
        return BadValue, 0;
      }
      status, slot := AttachWanted(buffer.value);
    }

    /** The part of `attachBuffer` from the wait on; it does not look at the mode again. */
    method AttachWanted(buffer: Buffer) returns (status: Status, slot: nat)
      requires Valid()
      modifies this`freeSlots, this`freeBuffers, this`activeBuffers, slots
      ensures Valid()
      ensures status == if isAllocating then MustWait else old(WaitOutcome(false))
      ensures status != NoError ==> AllLists() == old(AllLists()) && slots[..] == old(slots[..])
      ensures status == NoError ==>
                && slot < slots.Length && activeBuffers == old(activeBuffers) + {slot}
                && (slot in old(activeBuffers) <==> sharedBufferMode && Some(slot) == sharedBufferSlot)
                && slots[..] == old(slots[..])[slot := AttachedSlot(old(slots[..])[slot], buffer)]
      ensures status == NoError && sharedBufferSlot == None ==> slots[slot].OutstandingOnce() && slots[slot].dequeued == 1
      ensures status == NoError ==> match old(Choose(false))
        case TheShared => freeSlots == old(freeSlots) && freeBuffers == old(freeBuffers) && Some(slot) == sharedBufferSlot
        case FreeBuffer => freeSlots == old(freeSlots) && freeBuffers == old(freeBuffers[1..]) && slot == old(freeBuffers[0])
        case FreeSlot => freeSlots == old(freeSlots) - {slot} && freeBuffers == old(freeBuffers) && slot == FirstMarked(old(freeSlots))
    {
      hide Valid, Taken, Dequeued, Acquired;
      ghost var c := Now();
      if isAllocating {
        return MustWait, 0;
      }
      status, slot := TakeSlot(false);
      if status != NoError {
        return;
      }
      WhatIsTaken(c, slot);
      PutBuffer(slot, buffer, c);
    }

    /** The buffer goes to the slot, which goes to the producer. */
    method PutBuffer(slot: nat, buffer: Buffer, ghost c: Core)
      requires Taken(c, slot)
      modifies this`activeBuffers, slots
      ensures Valid() && activeBuffers == old(activeBuffers) + {slot}
      ensures slots[..] == old(slots[..])[slot := AttachedSlot(old(slots[..])[slot], buffer)]
    {
      hide Core.Fit;
      AttachedFits(c, AllLists(), slot, buffer);
      slots[slot] := slots[slot].Dequeue().(buffer := Some(buffer), requested := true, needsReallocation := false);
      activeBuffers := activeBuffers + {slot};
    }

    // ----- queue -----

    /** What a call to queue the buffer of this slot comes to. */
    ghost function QueueOutcome(slot: int, input: QueueInput): Status
      reads this, slots
    {
      if !input.hasFence || !input.knownScalingMode then BadValue
      else if abandoned || !connected then NoInit
      else if !OwnedByProducer(slot) || !slots[slot].requested then BadValue
      else if slots[slot].buffer == None then NullBuffer
      else if !input.cropFits then BadValue
      else NoError
    }

    predicate DropsLater(slot: int)
      reads this`asyncMode, this`queueBufferCanDrop, this`legacyBufferDrop, this`sharedBufferMode, this`sharedBufferSlot
    {
      asyncMode || (consumerIsSurfaceFlinger && queueBufferCanDrop) || (legacyBufferDrop && queueBufferCanDrop)
      || (sharedBufferMode && sharedBufferSlot.Some? && sharedBufferSlot.value == slot)
    }

    ghost function MaybeShared(slot: nat): seq<Slot>
      requires slot < slots.Length
      reads this, slots
    {
      if BecomesShared() then slots[..][slot := slots[slot].(shared := true)] else slots[..]
    }

    ghost predicate LastInRange()
      reads this, slots
    {
      queue != [] ==> queue[|queue| - 1].slot < slots.Length
    }

    method ShareFirst(slot: nat)
      requires Valid() && OwnedByProducer(slot)
      modifies this`sharedBufferSlot, slots
      ensures Valid()
      ensures sharedBufferSlot == if old(BecomesShared()) then Some(slot) else old(sharedBufferSlot)
      ensures slots[..] == old(MaybeShared(slot))
    {
      hide Core.Fit;
      ghost var c := Now();
      SlotFits(c, slot);
      if sharedBufferMode && sharedBufferSlot == None {
        ChangedFits(c, slot, slots[slot].(shared := true));
        SharingFits(c.With(slot, slots[slot].(shared := true), c.lists), slot, true);
        sharedBufferSlot := Some(slot);
        slots[slot] := slots[slot].(shared := true);
      }
    }

    /** Puts the buffer into the queue, in place of the last item if that is droppable. */
    method PutInQueue(slot: nat) returns (frameNumber: nat, replaced: bool, callback: Callback)
      requires Valid() && OwnedByProducer(slot) && slots[slot].buffer.Some?
      modifies this`queue, this`frameCounter, this`dropped, this`activeBuffers, this`freeBuffers, slots
      ensures Valid() && old(LastInRange())
      ensures frameNumber == frameCounter == old(frameCounter) + 1
      ensures var inPlace := old(queue != [] && queue[|queue| - 1].droppable);
              var canDrop := asyncMode || (queueBufferCanDrop && (legacyBufferDrop || consumerIsSurfaceFlinger))
                             || (sharedBufferMode && sharedBufferSlot == Some(slot));
              && queue == (if inPlace then old(queue[..|queue| - 1]) else old(queue)) + [Item(slot, frameNumber, canDrop, false)]
              && dropped == (if inPlace then old(dropped) + [old(queue[|queue| - 1].frameNumber)] else old(dropped))
              && callback == if inPlace then FrameReplaced else FrameAvailable
      ensures slots[..] == AfterPut(old(slots[..]), old(queue), slot, frameNumber, sharedBufferMode)
      ensures replaced <==> old(DropsLast(queue)) && !slots[old(queue[|queue| - 1].slot)].shared
      ensures activeBuffers == if replaced then old(activeBuffers) - {old(queue[|queue| - 1].slot)} else old(activeBuffers)
      ensures freeBuffers == if replaced then old(freeBuffers) + [old(queue[|queue| - 1].slot)] else old(freeBuffers)
    {
      hide Core.Fit, DropsLater, SlotsOf, Enqueue, AfterPut, PutCore;
      InFields();
      ghost var c := Now();
      PutFits(c, slot, DropsLater(slot));
      frameNumber, replaced, callback := PutItem(slot);
      QueuedPlainly(c.frames.queue, slot, frameNumber);
      PutCoreIs(c, slot, DropsLater(slot), replaced);
    }

    method PutItem(slot: nat) returns (frameNumber: nat, replaced: bool, callback: Callback)
      requires slot < slots.Length && LastInRange()
      modifies this`queue, this`frameCounter, this`dropped, this`activeBuffers, this`freeBuffers, slots
      ensures frameNumber == frameCounter == old(frameCounter) + 1
      ensures queue == Enqueue(old(queue), Item(slot, frameNumber, DropsLater(slot), false))
      ensures callback == if old(Replaces(queue)) then FrameReplaced else FrameAvailable
      ensures slots[..] == AfterPut(old(slots[..]), old(queue), slot, frameNumber, sharedBufferMode)
      ensures replaced <==> old(DropsLast(queue)) && !slots[old(queue[|queue| - 1].slot)].shared
      ensures activeBuffers == if replaced then old(activeBuffers) - {old(queue[|queue| - 1].slot)} else old(activeBuffers)
      ensures freeBuffers == if replaced then old(freeBuffers) + [old(queue[|queue| - 1].slot)] else old(freeBuffers)
      ensures dropped == old(dropped) + if old(Replaces(queue)) then [old(queue[|queue| - 1].frameNumber)] else []
    {
      hide DropsLater, Enqueue, WithoutLastItem;
      frameCounter := frameCounter + 1;
      frameNumber := frameCounter;
      slots[slot] := slots[slot].Queue().(frameNumber := frameNumber);
      dropped := dropped + if Replaces(queue) then [queue[|queue| - 1].frameNumber] else [];
      replaced, callback := ReplaceOrAppend(Item(slot, frameNumber, DropsLater(slot), false));
    }

    /** An item that is still in the queue and holds on to its slot gives the slot back when it is replaced. */
    method ReplaceOrAppend(item: Item) returns (replaced: bool, callback: Callback)
      requires LastInRange()
      modifies this`queue, this`activeBuffers, this`freeBuffers, slots
      ensures queue == Enqueue(old(queue), item)
      ensures callback == if old(Replaces(queue)) then FrameReplaced else FrameAvailable
      ensures slots[..] == WithoutLastItem(old(slots[..]), old(queue), sharedBufferMode)
      ensures replaced <==> old(DropsLast(queue)) && !slots[old(queue[|queue| - 1].slot)].shared
      ensures activeBuffers == if replaced then old(activeBuffers) - {old(queue[|queue| - 1].slot)} else old(activeBuffers)
      ensures freeBuffers == if replaced then old(freeBuffers) + [old(queue[|queue| - 1].slot)] else old(freeBuffers)
    {
      replaced := false;
      if queue != [] && queue[|queue| - 1].droppable {
        var last := queue[|queue| - 1];
        if !last.stale {
          slots[last.slot] := slots[last.slot].FreeQueued();
          if !sharedBufferMode && slots[last.slot].IsFree() {
            slots[last.slot] := slots[last.slot].(shared := false);
          }
          if !slots[last.slot].shared {
            activeBuffers := activeBuffers - {last.slot};
            freeBuffers := freeBuffers + [last.slot];
            replaced := true;
          }
        }
        queue := queue[..|queue| - 1] + [item];
        callback := FrameReplaced;
      } else {
        queue := queue + [item];
        callback := FrameAvailable;
      }
    }

    /** `queueBuffer` under the lock.  The frame gets the next frame number and the next callback ticket. */
    method QueueBuffer(slot: int, input: QueueInput)
      returns (status: Status, frameNumber: nat, ticket: nat, replaced: bool, callback: Callback)
      requires Valid()
      modifies this`queue, this`frameCounter, this`dropped, this`nextCallbackTicket, this`bufferHasBeenQueued, this`sharedBufferSlot,
               this`activeBuffers, this`freeBuffers, slots
      ensures Valid()
      ensures status == old(QueueOutcome(slot, input))
      ensures status != NoError ==>
                queue == old(queue) && dropped == old(dropped) && frameCounter == old(frameCounter) && nextCallbackTicket == old(nextCallbackTicket)
                && AllLists() == old(AllLists())
      ensures status == NoError ==>
                && frameNumber == frameCounter == old(frameCounter) + 1
                && ticket == old(nextCallbackTicket) && nextCallbackTicket == ticket + 1 && bufferHasBeenQueued
                && sharedBufferSlot == (if old(BecomesShared()) then Some(slot) else old(sharedBufferSlot))
                && slots[..] == AfterPut(old(MaybeShared(slot)), old(queue), slot, frameNumber, sharedBufferMode)
                && (replaced <==> old(DropsLast(queue)) && !slots[old(queue[|queue| - 1].slot)].shared)
                && activeBuffers == (if replaced then old(activeBuffers) - {old(queue[|queue| - 1].slot)} else old(activeBuffers))
                && freeBuffers == (if replaced then old(freeBuffers) + [old(queue[|queue| - 1].slot)] else old(freeBuffers))
      ensures status == NoError ==>
                var inPlace := old(queue != [] && queue[|queue| - 1].droppable);
                var canDrop := asyncMode || (queueBufferCanDrop && (legacyBufferDrop || consumerIsSurfaceFlinger))
                               || (sharedBufferMode && sharedBufferSlot == Some(slot));
                && queue == (if inPlace then old(queue[..|queue| - 1]) else old(queue)) + [Item(slot, frameNumber, canDrop, false)]
                && dropped == (if inPlace then old(dropped) + [old(queue[|queue| - 1].frameNumber)] else old(dropped))
                && callback == if inPlace then FrameReplaced else FrameAvailable
    {
      hide AfterPut, Enqueue, GivenBack, Valid, DropsLater, Replaces, DropsLast;
      InFields();
      frameNumber, ticket, replaced, callback := 0, 0, false, FrameAvailable;
      if !input.hasFence || !input.knownScalingMode {
        return BadValue, 0, 0, false, FrameAvailable;
      }
      if abandoned || !connected {
        return NoInit, 0, 0, false, FrameAvailable;
      }
      if slot < 0 || slot >= NUM_BUFFER_SLOTS || slots[slot].dequeued == 0 || !slots[slot].requested {
        return BadValue, 0, 0, false, FrameAvailable;
      }
      ShareFirst(slot);
      if slots[slot].buffer == None {
        return NullBuffer, 0, 0, false, FrameAvailable;
      }
      if !input.cropFits {
        return BadValue, 0, 0, false, FrameAvailable;
      }
      status := NoError;
      frameNumber, replaced, callback := PutInQueue(slot);
      bufferHasBeenQueued := true;
      ticket := nextCallbackTicket;
      nextCallbackTicket := nextCallbackTicket + 1;
    }

    lemma QueuedPlainly(before: seq<Item>, slot: nat, frameNumber: nat)
      ensures Replaces(before) <==> before != [] && before[|before| - 1].droppable
      ensures var canDrop := asyncMode || (queueBufferCanDrop && (legacyBufferDrop || consumerIsSurfaceFlinger))
                             || (sharedBufferMode && sharedBufferSlot == Some(slot));
              Enqueue(before, Item(slot, frameNumber, DropsLater(slot), false))
              == (if before != [] && before[|before| - 1].droppable then before[..|before| - 1] else before)
                 + [Item(slot, frameNumber, canDrop, false)]
    {
    }

    // ----- connect, disconnect and modes -----

    /** What `connect` makes of `mDequeueBufferCannotBlock`. */
    function CannotBlock(producerControlledByApp: bool, hasTimeout: bool): bool {
      consumerControlledByApp && producerControlledByApp && !hasTimeout
    }

    /** `connect` gets as far as to start over with new flags; an unknown API is refused only after that. */
    ghost predicate CanConnect(producerControlledByApp: bool, hasTimeout: bool)
      reads this
    {
      !abandoned && !connected
      && CanAdjust(MaxCountWith(asyncMode, CannotBlock(producerControlledByApp, hasTimeout)) - MaxBufferCount())
    }

    /** `connect`.  A call with an unknown API reports an error but has already adjusted the slots and the
        flags, consistently. */
    method Connect(knownApi: bool, producerControlledByApp: bool, hasTimeout: bool, positiveTimeout: bool) returns (status: Status)
      requires Valid() && (positiveTimeout ==> hasTimeout)
      modifies this`connected, this`bufferHasBeenQueued, this`dequeueBufferCannotBlock, this`queueBufferCanDrop, this`legacyBufferDrop,
               this`allowAllocation, this`freeSlots, this`freeBuffers, this`unusedSlots, slots
      ensures Valid() && (old(SlotsAreCounted()) ==> SlotsAreCounted())
      ensures status == if abandoned then NoInit
                        else if old(CanConnect(producerControlledByApp, hasTimeout)) && knownApi then NoError else BadValue
      ensures connected == (old(connected) || status == NoError)
      ensures if old(CanConnect(producerControlledByApp, hasTimeout))
              then !bufferHasBeenQueued && allowAllocation && legacyBufferDrop
                && dequeueBufferCannotBlock == CannotBlock(producerControlledByApp, hasTimeout)
                && queueBufferCanDrop == (consumerControlledByApp && producerControlledByApp && !positiveTimeout)
              else unchanged(`bufferHasBeenQueued, `dequeueBufferCannotBlock, `queueBufferCanDrop, `legacyBufferDrop, `allowAllocation)
      ensures !old(CanConnect(producerControlledByApp, hasTimeout))
              || old(MaxBufferCount()) == MaxCountWith(asyncMode, CannotBlock(producerControlledByApp, hasTimeout)) ==>
                AllLists() == old(AllLists()) && slots[..] == old(slots[..])
      ensures forall s :: s in activeBuffers && s < slots.Length ==> slots[s] == old(slots[s])
    {
      hide Valid, MaxBufferCountFor, CannotBlock, SlotsOf;
      if abandoned {
        return NoInit;
      }
      if connected {
        return BadValue;
      }
      var ok := Restart(producerControlledByApp, hasTimeout, positiveTimeout);
      if !ok {
        return BadValue;
      }
      if !knownApi {
        return BadValue;
      }
      connected := true;
      return NoError;
    }

    /** Slots and flags as a new producer needs them. */
    method Restart(producerControlledByApp: bool, hasTimeout: bool, positiveTimeout: bool) returns (ok: bool)
      requires Valid() && !abandoned && !connected
      modifies this`bufferHasBeenQueued, this`dequeueBufferCannotBlock, this`queueBufferCanDrop, this`legacyBufferDrop,
               this`allowAllocation, this`freeSlots, this`freeBuffers, this`unusedSlots, slots
      ensures Valid() && (old(SlotsAreCounted()) ==> SlotsAreCounted())
      ensures ok == old(CanConnect(producerControlledByApp, hasTimeout))
      ensures if ok
              then !bufferHasBeenQueued && allowAllocation && legacyBufferDrop
                && dequeueBufferCannotBlock == CannotBlock(producerControlledByApp, hasTimeout)
                && queueBufferCanDrop == (consumerControlledByApp && producerControlledByApp && !positiveTimeout)
              else unchanged(`bufferHasBeenQueued, `dequeueBufferCannotBlock, `queueBufferCanDrop, `legacyBufferDrop, `allowAllocation)
      ensures !ok || old(MaxBufferCount()) == MaxCountWith(asyncMode, CannotBlock(producerControlledByApp, hasTimeout)) ==>
                AllLists() == old(AllLists()) && slots[..] == old(slots[..])
      ensures forall s :: s in activeBuffers && s < slots.Length ==> slots[s] == old(slots[s])
    {
      hide Valid, MaxBufferCountFor, CannotBlock, SlotsOf;
      ok := AdjustFor(asyncMode, CannotBlock(producerControlledByApp, hasTimeout));
      if ok {
        StartOver(producerControlledByApp, hasTimeout, positiveTimeout);
      }
    }

    method StartOver(producerControlledByApp: bool, hasTimeout: bool, positiveTimeout: bool)
      modifies this`bufferHasBeenQueued, this`dequeueBufferCannotBlock, this`queueBufferCanDrop, this`legacyBufferDrop, this`allowAllocation
      ensures !bufferHasBeenQueued && allowAllocation && legacyBufferDrop
      ensures dequeueBufferCannotBlock == CannotBlock(producerControlledByApp, hasTimeout)
      ensures queueBufferCanDrop == (consumerControlledByApp && producerControlledByApp && !positiveTimeout)
    {
      bufferHasBeenQueued, dequeueBufferCannotBlock, queueBufferCanDrop, legacyBufferDrop := false, false, false, true;
      if consumerControlledByApp && producerControlledByApp {
        dequeueBufferCannotBlock := !hasTimeout;
        queueBufferCanDrop := !positiveTimeout;
      }
      allowAllocation := true;
    }

    /** `freeAllBuffersLocked`. */
    method FreeAllBuffers()
      requires Valid()
      modifies this`freeSlots, this`freeBuffers, this`activeBuffers, this`queue, slots
      ensures activeBuffers == {} && freeBuffers == []
      ensures freeSlots == old(freeSlots) + old(activeBuffers) + Elements(old(freeBuffers))
      ensures queue == MarkStale(old(queue))
      ensures AllCleared(old(slots[..]), old(AllLists()), slots[..])
    {
      hide Core.Fit;
      InFields();
      var all := freeSlots + activeBuffers + set s | s in freeBuffers;
      assert all == freeSlots + activeBuffers + Elements(freeBuffers);
      ghost var c := Now();
      forall s | 0 <= s < NUM_BUFFER_SLOTS
        ensures s in all <==> s !in unusedSlots
      {
        SlotFits(c, s);
      }
      forall s | 0 <= s < NUM_BUFFER_SLOTS && s in all {
        slots[s] := slots[s].Clear();
      }
      freeSlots, freeBuffers, activeBuffers := all, [], {};
      queue := MarkStale(queue);
    }

    /** `disconnect` of the connected API.  Everything in use becomes a free slot without a buffer, and the
        items still in the queue become stale. */
    method Disconnect() returns (status: Status)
      requires Valid()
      modifies this`connected, this`sharedBufferSlot, this`freeSlots, this`freeBuffers, this`activeBuffers, this`queue, slots
      ensures Valid()
      ensures status == if isAllocating then MustWait else if !abandoned && !old(connected) then NoInit else NoError
      ensures !isAllocating && !abandoned && old(connected) ==>
                !connected && sharedBufferSlot == None && activeBuffers == {} && freeBuffers == []
                && freeSlots == old(freeSlots) + old(activeBuffers) + Elements(old(freeBuffers))
                && queue == MarkStale(old(queue))
      ensures isAllocating || abandoned || !old(connected) ==>
                AllLists() == old(AllLists()) && queue == old(queue) && slots[..] == old(slots[..]) && connected == old(connected)
    {
      hide Core.Fit, AllCleared;
      if isAllocating {
        return MustWait;
      }
      if abandoned {
        return NoError;
      }
      if !connected {
        return NoInit;
      }
      ghost var c := Now();
      FreeAllBuffers();
      FreedFits(c, slots[..]);
      sharedBufferSlot := None;
      connected := false;
      return NoError;
    }

    /** `setSharedBufferMode`.  Leaving the mode strands the shared buffer if nobody holds it just then. */
    method SetSharedBufferMode(mode: bool)
      requires Valid()
      modifies this`sharedBufferMode, this`sharedBufferSlot
      ensures Valid() && sharedBufferMode == mode
      ensures sharedBufferSlot == if mode then old(sharedBufferSlot) else None
      ensures Stranded() == old(Stranded()) +
                if !mode && old(sharedBufferSlot).Some? && slots[old(sharedBufferSlot).value].IsFree() then {old(sharedBufferSlot).value} else {}
    {
      if !mode {
        sharedBufferSlot := None;
      }
      sharedBufferMode := mode;
    }

    /** Active buffers that nobody holds and that are no longer handed out. */
    ghost function Stranded(): set<nat>
      reads this`activeBuffers, this`sharedBufferSlot, slots
    {
      set s | s in activeBuffers && s < slots.Length && slots[s].IsFree() && sharedBufferSlot != Some(s)
    }

    /** `allowAllocation`. */
    method AllowAllocation(allow: bool)
      modifies this`allowAllocation
      ensures allowAllocation == allow
    {
      allowAllocation := allow;
    }

    /** The first part of `allocateBuffers`: it begins if allocation is allowed and there is a free slot. */
    method StartAllocation() returns (mustWait: bool, started: bool)
      modifies this`isAllocating
      ensures mustWait == old(isAllocating)
      ensures started == (!mustWait && allowAllocation && freeSlots != {})
      ensures isAllocating == (mustWait || started)
    {
      mustWait, started := isAllocating, false;
      if !mustWait && allowAllocation && freeSlots != {} {
        isAllocating, started := true, true;
      }
    }

    /** The second part of `allocateBuffers`: the lowest free slot gets the new buffer and is the next one to be
        dequeued.  If allocation failed, the wanted attributes have changed, or the free slots were taken
        meanwhile, nothing but the flag changes. */
    method AllocateBuffer(buffer: Option<Buffer>, stillWanted: bool) returns (used: bool)
      requires Valid()
      modifies this`freeSlots, this`freeBuffers, this`isAllocating, slots
      ensures Valid() && !isAllocating
      ensures used == (buffer.Some? && stillWanted && old(freeSlots) != {})
      ensures used ==>
                var s := FirstMarked(old(freeSlots));
                && freeSlots == old(freeSlots) - {s} && freeBuffers == [s] + old(freeBuffers)
                && s < slots.Length && slots[..] == old(slots[..])[s := NEW_SLOT.(buffer := buffer, needsReallocation := true)]
      ensures !used ==> AllLists() == old(AllLists()) && slots[..] == old(slots[..])
    {
      hide Core.Fit;
      isAllocating := false;
      if buffer == None || !stillWanted || freeSlots == {} {
        return false;
      }
      var s := FirstMarked(freeSlots);
      ghost var c := Now();
      AllocatedFits(c, s, buffer.value);
      ClearBufferSlot(s);
      slots[s] := slots[s].(buffer := buffer);
      freeBuffers := [s] + freeBuffers;
      freeSlots := freeSlots - {s};
      assert slots[..] == c.slots[s := c.slots[s].Clear().(buffer := buffer)];
      return true;
    }

    // ----- steps of the consumer -----

    /** Takes the first item; a stale one no longer stands for a buffer. */
    method AcquireFirst() returns (item: Item)
      requires Valid() && queue != []
      modifies this`queue, this`taken, slots
      ensures Valid() && taken == old(taken) + [item.frameNumber]
      ensures item == old(queue[0]) && queue == old(queue[1..]) && item.slot < slots.Length
      ensures slots[..] == if item.stale then old(slots[..]) else old(slots[..])[item.slot := old(slots[..])[item.slot].Acquire()]
    {
      hide Core.Fit;
      TakenFits(Now());
      item := queue[0];
      taken := taken + [item.frameNumber];
      queue := queue[1..];
      if !item.stale {
        slots[item.slot] := slots[item.slot].Acquire();
      }
    }

    /** In shared buffer mode with auto-refresh the consumer may acquire the shared buffer at any time. */
    method AcquireShared()
      requires Valid() && sharedBufferSlot.Some?
      modifies slots
      ensures Valid()
      ensures var s := sharedBufferSlot.value;
              slots[..] == old(slots[..])[s := old(slots[..])[s].(acquired := old(slots[..])[s].acquired + 1)]
    {
      hide Core.Fit;
      InFields();
      var s := sharedBufferSlot.value;
      ChangedFits(Now(), s, slots[s].(acquired := slots[s].acquired + 1));
      slots[s] := slots[s].(acquired := slots[s].acquired + 1);
    }

    /** Gives an acquired buffer back.  A shared slot can be acquired before its buffer is there. */
    method Release(s: nat)
      requires Valid() && s < slots.Length && slots[s].acquired > 0
      modifies this`activeBuffers, this`freeBuffers, slots
      ensures Valid() <==> slots[s].shared || slots[s].buffer.Some?
      ensures slots[..] == old(slots[..])[s := GivenBack(old(slots[..])[s].Release(), sharedBufferMode)]
      ensures if slots[s].shared then AllLists() == old(AllLists())
              else activeBuffers == old(activeBuffers) - {s} && freeBuffers == old(freeBuffers) + [s]
    {
      hide Core.Fit;
      InFields();
      SlotFits(Now(), s);
      GiveBack(s, slots[s].Release());
    }

    /** The consumer goes away.  The frames that are still queued are lost. */
    method Abandon()
      requires Valid()
      modifies this`abandoned, this`sharedBufferSlot, this`freeSlots, this`freeBuffers, this`activeBuffers, this`queue, this`dropped, slots
      ensures Valid() && abandoned && queue == [] && activeBuffers == {} && freeBuffers == [] && sharedBufferSlot == None
      ensures freeSlots == old(freeSlots) + old(activeBuffers) + Elements(old(freeBuffers))
      ensures dropped == old(dropped) + Numbers(old(queue))
    {
      hide Core.Fit, AllCleared;
      ghost var c := Now();
      FreeAllBuffers();
      dropped := dropped + Numbers(c.frames.queue);
      AbandonedFits(c, slots[..]);
      sharedBufferSlot := None;
      queue := [];
      abandoned := true;
    }
  }

  lemma OneMoreCounted(all: set<nat>, rest: set<nat>, s: nat)
    requires s in rest
    ensures |all - (rest - {s})| == |all - rest| + if s in all then 1 else 0
  {
    assert all - (rest - {s}) == (all - rest) + if s in all then {s} else {};
  }
}
