/** The slots and the item queue of a buffer queue.

    `BufferState`, `BufferSlot`, `BufferItem` and `GraphicBuffer` are not part of this model's source tree;
    what the producer relies on is stated here. */
module BufferSlots {
  import opened BitSets
  import opened Options

  const NUM_BUFFER_SLOTS: nat := 64

  /** What a buffer is allocated with. */
  datatype Attributes = Attributes(width: nat, height: nat, format: nat, usage: set<nat>)

  datatype Buffer = Buffer(attributes: Attributes, generation: nat)
  {
    /** `needsReallocation`. */
    predicate NeedsReallocation(wanted: Attributes) {
      attributes.width != wanted.width || attributes.height != wanted.height
      || attributes.format != wanted.format || !(wanted.usage <= attributes.usage)
    }
  }

  /** One `BufferSlot` with its `BufferState`: how often the slot is dequeued, queued and acquired. */
  datatype Slot = Slot(
    buffer: Option<Buffer>, dequeued: nat, queued: nat, acquired: nat, shared: bool,
    requested: bool, needsReallocation: bool, frameNumber: nat)
  {
    predicate IsFree() {
      dequeued == 0 && queued == 0 && acquired == 0
    }

    function Dequeue(): Slot {
      this.(dequeued := dequeued + 1)
    }

    function Queue(): Slot {
      this.(dequeued := if dequeued > 0 then dequeued - 1 else 0, queued := queued + 1)
    }

    function Cancel(): Slot {
      this.(dequeued := if dequeued > 0 then dequeued - 1 else 0)
    }

    function FreeQueued(): Slot {
      this.(queued := if queued > 0 then queued - 1 else 0)
    }

    function Acquire(): Slot {
      this.(queued := if queued > 0 then queued - 1 else 0, acquired := acquired + 1)
    }

    function Release(): Slot {
      this.(acquired := if acquired > 0 then acquired - 1 else 0)
    }

    predicate NeedsAllocation(wanted: Attributes) {
      buffer == None || buffer.value.NeedsReallocation(wanted)
    }

    /** What `clearBufferSlotLocked` does to a slot. */
    function Clear(): (cleared: Slot)
      ensures cleared.Empty()
    {
      Slot(None, 0, 0, 0, false, false, true, 0)
    }

    predicate Empty() {
      buffer == None && IsFree() && !shared
    }

    /** Neither dequeued nor queued nor acquired more than once in all. */
    predicate OutstandingOnce() {
      dequeued + queued + acquired == 1
    }
  }

  const NEW_SLOT: Slot := Slot(None, 0, 0, 0, false, false, false, 0)

  ghost predicate NoDuplicates(list: seq<nat>) {
    forall i, j :: 0 <= i < j < |list| ==> list[i] != list[j]
  }

  /** A slot is in exactly one of the four lists, and its state fits the list it is in.  An active slot holds
      a buffer, unless one is being allocated for it and it has not been queued yet.  An allocation can also be
      under way for a slot that was given up in the meantime. */
  ghost predicate Fits(slot: Slot, free: bool, freeBuffer: bool, active: bool, unused: bool, allocating: bool) {
    if free then !freeBuffer && !active && !unused && slot.Empty()
    else if freeBuffer then !active && !unused && slot.buffer.Some? && slot.IsFree() && !slot.shared
    else if active then !unused && (slot.shared || slot.OutstandingOnce()) && (slot.buffer.Some? || (allocating && slot.queued == 0))
    else unused && slot.Empty()
  }

  /** The lists of the queue core; `allocating` are the slots that a buffer is being allocated for. */
  datatype Lists = Lists(freeSlots: set<nat>, freeBuffers: seq<nat>, active: set<nat>, unused: seq<nat>, allocating: set<nat>)
  {
    ghost predicate WellFormed() {
      && NoDuplicates(freeBuffers) && NoDuplicates(unused)
      && Below(freeSlots, NUM_BUFFER_SLOTS) && Below(active, NUM_BUFFER_SLOTS) && Below(allocating, NUM_BUFFER_SLOTS)
      && (forall i :: 0 <= i < |freeBuffers| ==> freeBuffers[i] < NUM_BUFFER_SLOTS)
      && (forall i :: 0 <= i < |unused| ==> unused[i] < NUM_BUFFER_SLOTS)
    }

    ghost predicate Allow(s: nat, slot: Slot) {
      Fits(slot, s in freeSlots, s in freeBuffers, s in active, s in unused, s in allocating)
    }

    ghost predicate SameFor(s: nat, that: Lists) {
      && (s in freeSlots <==> s in that.freeSlots) && (s in freeBuffers <==> s in that.freeBuffers)
      && (s in active <==> s in that.active) && (s in unused <==> s in that.unused)
      && (s in allocating <==> s in that.allocating)
    }
  }

  /** Free slots, free buffers, active buffers and unused slots partition all slots. */
  ghost predicate Placed(slots: seq<Slot>, lists: Lists) {
    && |slots| == NUM_BUFFER_SLOTS && lists.WellFormed()
    && forall s :: 0 <= s < NUM_BUFFER_SLOTS ==> lists.Allow(s, slots[s])
  }

  /** One slot changes its state and its list. */
  lemma Move(slots: seq<Slot>, lists: Lists, slots': seq<Slot>, lists': Lists, s: nat)
    requires Placed(slots, lists) && s < NUM_BUFFER_SLOTS
    requires |slots'| == |slots| && lists'.WellFormed() && lists'.Allow(s, slots'[s])
    requires forall x :: 0 <= x < |slots| && x != s ==> slots'[x] == slots[x] && lists.SameFor(x, lists')
    ensures Placed(slots', lists')
  {
    forall x | 0 <= x < NUM_BUFFER_SLOTS && x != s
      ensures lists'.Allow(x, slots'[x])
    {
      assert lists.Allow(x, slots[x]) && lists.SameFor(x, lists');
    }
  }

  /** The slot after `dequeueBuffer` handed it out. */
  function HandedSlot(slot: Slot, wanted: Attributes, becomesShared: bool): Slot {
    var handed := slot.Dequeue().(needsReallocation := false, shared := slot.shared || becomesShared);
    if slot.NeedsAllocation(wanted) then handed.(buffer := None, requested := false) else handed
  }

  /** The buffer has just this size and format, and may be used in all these ways. */
  predicate AsWanted(buffer: Option<Buffer>, width: nat, height: nat, format: nat, usage: set<nat>) {
    match buffer
    case None => false
    case Some(b) => b.attributes.width == width && b.attributes.height == height && b.attributes.format == format && usage <= b.attributes.usage
  }

  lemma NeedsIff(slot: Slot, wanted: Attributes)
    ensures slot.NeedsAllocation(wanted) <==> !AsWanted(slot.buffer, wanted.width, wanted.height, wanted.format, wanted.usage)
  {
  }

  /** A slot that is handed out is dequeued once more; a buffer that has to be allocated must be requested again. */
  lemma HandedPlainly(slot: Slot, wanted: Attributes, becomesShared: bool)
    ensures var handed, kept := HandedSlot(slot, wanted, becomesShared), AsWanted(slot.buffer, wanted.width, wanted.height, wanted.format, wanted.usage);
            && handed.dequeued == slot.dequeued + 1 && handed.queued == slot.queued && handed.acquired == slot.acquired
            && handed.buffer == (if kept then slot.buffer else None) && handed.requested == (kept && slot.requested)
            && handed.shared == (slot.shared || becomesShared) && handed.frameNumber == slot.frameNumber && !handed.needsReallocation
  {
  }

  lemma HandedIs(slot: Slot, wanted: Attributes, becomesShared: bool)
    ensures var handed := HandedSlot(slot, wanted, becomesShared);
            && handed.dequeued > 0 && (handed.buffer == None <==> slot.NeedsAllocation(wanted))
            && (handed.buffer.Some? ==> !handed.buffer.value.NeedsReallocation(wanted))
  {
  }

  /** A slot that was found for dequeuing becomes active, or stays so if it is the shared one. */
  lemma HandingOutMoves(slots: seq<Slot>, lists: Lists, taken: Lists, s: nat, wanted: Attributes, becomesShared: bool, lists': Lists)
    requires Placed(slots, lists) && s < NUM_BUFFER_SLOTS
    requires taken.WellFormed() && (forall x :: 0 <= x < NUM_BUFFER_SLOTS && x != s ==> lists.SameFor(x, taken))
    requires s !in taken.freeSlots && s !in taken.freeBuffers && s !in taken.unused
    requires s in lists.active ==> slots[s].shared && !slots[s].NeedsAllocation(wanted)
    requires lists' == taken.(active := taken.active + {s},
                              allocating := taken.allocating + if slots[s].NeedsAllocation(wanted) then {s} else {})
    ensures Placed(slots[s := HandedSlot(slots[s], wanted, becomesShared)], lists')
  {
    assert lists.Allow(s, slots[s]);
    forall x | 0 <= x < NUM_BUFFER_SLOTS && x != s
      ensures lists.SameFor(x, lists')
    {
      assert lists.SameFor(x, taken);
    }
    Move(slots, lists, slots[s := HandedSlot(slots[s], wanted, becomesShared)], lists', s);
  }

  /** A slot nobody holds any more is no longer shared once shared buffer mode is off. */
  function GivenBack(slot: Slot, sharedMode: bool): Slot {
    if !sharedMode && slot.IsFree() then slot.(shared := false) else slot
  }

  /** An active slot that somebody gave back becomes a free buffer, unless it is still shared. */
  lemma GivingBackMoves(slots: seq<Slot>, lists: Lists, s: nat, slot: Slot, sharedMode: bool, lists': Lists)
    requires Placed(slots, lists) && s in lists.active && slot.queued <= slots[s].queued
    requires slot.buffer == slots[s].buffer && slot.shared == slots[s].shared && (slot.shared || slot.IsFree())
    requires lists' == if GivenBack(slot, sharedMode).shared then lists
                       else lists.(active := lists.active - {s}, freeBuffers := lists.freeBuffers + [s])
    ensures Placed(slots[s := GivenBack(slot, sharedMode)], lists') <==> GivenBack(slot, sharedMode).shared || slot.buffer.Some?
  {
    assert lists.Allow(s, slots[s]);
    WithOneMore(lists.freeBuffers, s);
    if GivenBack(slot, sharedMode).shared || slot.buffer.Some? {
      Move(slots, lists, slots[s := GivenBack(slot, sharedMode)], lists', s);
    } else {
      assert !lists'.Allow(s, slots[s := GivenBack(slot, sharedMode)][s]);
    }
  }

  /** Only an active slot is dequeued, and it stays active when it is queued. */
  lemma QueueingMoves(slots: seq<Slot>, lists: Lists, s: nat, frameNumber: nat)
    requires Placed(slots, lists) && s < |slots| && slots[s].dequeued > 0 && slots[s].buffer.Some?
    ensures s in lists.active && |slots| == NUM_BUFFER_SLOTS
    ensures Placed(slots[s := slots[s].Queue().(frameNumber := frameNumber)], lists)
  {
    assert lists.Allow(s, slots[s]);
    Move(slots, lists, slots[s := slots[s].Queue().(frameNumber := frameNumber)], lists, s);
  }

  lemma Where(slots: seq<Slot>, lists: Lists, s: nat)
    requires Placed(slots, lists)
    ensures lists.WellFormed() && |slots| == NUM_BUFFER_SLOTS
    ensures s < NUM_BUFFER_SLOTS ==> lists.Allow(s, slots[s])
    ensures s in lists.freeSlots || s in lists.freeBuffers || s in lists.active || s in lists.unused ==> s < NUM_BUFFER_SLOTS
  {
  }

  lemma WithoutFirst(list: seq<nat>)
    requires NoDuplicates(list) && list != []
    ensures NoDuplicates(list[1..])
    ensures forall s :: s in list[1..] <==> s in list && s != list[0]
  {
    forall s | s in list && s != list[0]
      ensures s in list[1..]
    {
      var k :| 0 <= k < |list| && list[k] == s;
      assert list[1..][k - 1] == s;
    }
  }

  lemma WithoutLast(list: seq<nat>)
    requires NoDuplicates(list) && list != []
    ensures NoDuplicates(list[..|list| - 1])
    ensures forall s :: s in list[..|list| - 1] <==> s in list && s != list[|list| - 1]
  {
    forall s | s in list && s != list[|list| - 1]
      ensures s in list[..|list| - 1]
    {
      var k :| 0 <= k < |list| && list[k] == s;
      assert list[..|list| - 1][k] == s;
    }
  }

  lemma WithOneMore(list: seq<nat>, s: nat)
    requires NoDuplicates(list) && s !in list
    ensures NoDuplicates(list + [s]) && NoDuplicates([s] + list)
    ensures forall x :: x in list + [s] <==> x in list || x == s
    ensures forall x :: x in [s] + list <==> x in list || x == s
  {
  }

  /** The first of these slots whose buffer is as wanted. */
  ghost function FirstFitting(slots: seq<Slot>, list: seq<nat>, wanted: Attributes): Option<nat> {
    if list == [] then None
    else if list[0] < |slots| && !slots[list[0]].NeedsAllocation(wanted) then Some(list[0])
    else FirstFitting(slots, list[1..], wanted)
  }

  /** It is the first slot of the list whose buffer is as wanted. */
  lemma {:induction false} FirstFittingIs(slots: seq<Slot>, list: seq<nat>, wanted: Attributes, k: nat)
    requires k < |list| && forall i :: 0 <= i < |list| ==> list[i] < |slots|
    ensures FirstFitting(slots, list, wanted) == None ==> slots[list[k]].NeedsAllocation(wanted)
    ensures !slots[list[k]].NeedsAllocation(wanted) && (forall i :: 0 <= i < k ==> slots[list[i]].NeedsAllocation(wanted)) ==>
              FirstFitting(slots, list, wanted) == Some(list[k])
    decreases |list|
  {
    if k > 0 {
      FirstFittingIs(slots, list[1..], wanted, k - 1);
    }
  }

  lemma {:induction false} FittingIsListed(slots: seq<Slot>, list: seq<nat>, wanted: Attributes)
    ensures var fitting := FirstFitting(slots, list, wanted);
            fitting.Some? ==> fitting.value in list && fitting.value < |slots| && !slots[fitting.value].NeedsAllocation(wanted)
    decreases |list|
  {
    if list != [] {
      FittingIsListed(slots, list[1..], wanted);
    }
  }

  lemma {:induction false} FittingDependsOnListed(slots: seq<Slot>, slots': seq<Slot>, list: seq<nat>, wanted: Attributes)
    requires |slots| == |slots'|
    requires forall k :: 0 <= k < |list| && list[k] < |slots| ==> slots'[list[k]] == slots[list[k]]
    ensures FirstFitting(slots', list, wanted) == FirstFitting(slots, list, wanted)
    decreases |list|
  {
    if list != [] {
      FittingDependsOnListed(slots, slots', list[1..], wanted);
    }
  }

  // ----- the queue of items -----

  datatype Item = Item(slot: nat, frameNumber: nat, droppable: bool, stale: bool)

  ghost function Counted(item: Item, s: nat): nat {
    if item.slot == s && !item.stale then 1 else 0
  }

  /** How many items of the queue hold on to slot `s`. */
  ghost function QueuedItems(queue: seq<Item>, s: nat): nat {
    if queue == [] then 0
    else QueuedItems(queue[..|queue| - 1], s) + Counted(queue[|queue| - 1], s)
  }

  predicate Replaces(queue: seq<Item>) {
    queue != [] && queue[|queue| - 1].droppable
  }

  /** A droppable item at the end of the queue is replaced, any other one stays. */
  function Enqueue(queue: seq<Item>, item: Item): seq<Item> {
    if Replaces(queue) then queue[..|queue| - 1] + [item] else queue + [item]
  }

  /** The queue is in order of frame numbers, its items are counted in their slots, and only its last item
      can be droppable. */
  ghost predicate InOrder(queue: seq<Item>, frameCounter: nat) {
    && (forall i, j :: 0 <= i < j < |queue| ==> queue[i].frameNumber < queue[j].frameNumber)
    && (forall i :: 0 <= i < |queue| ==> queue[i].frameNumber <= frameCounter && queue[i].slot < NUM_BUFFER_SLOTS)
    && forall i :: 0 <= i < |queue| - 1 ==> !queue[i].droppable
  }

  ghost predicate CountsMatch(slots: seq<Slot>, queue: seq<Item>, frameCounter: nat) {
    forall s :: 0 <= s < |slots| ==> slots[s].queued == QueuedItems(queue, s) && slots[s].frameNumber <= frameCounter
  }

  lemma CountOf(slots: seq<Slot>, queue: seq<Item>, frameCounter: nat, s: nat)
    requires CountsMatch(slots, queue, frameCounter) && s < |slots|
    ensures slots[s].queued == QueuedItems(queue, s) && slots[s].frameNumber <= frameCounter
  {
  }

  lemma CountsAfter(slots: seq<Slot>, slots': seq<Slot>, queue: seq<Item>, frameCounter: nat, s: nat)
    requires CountsMatch(slots, queue, frameCounter) && s < |slots| == |slots'|
    requires forall x :: 0 <= x < |slots| && x != s ==> slots'[x] == slots[x]
    requires slots'[s].queued == slots[s].queued && slots'[s].frameNumber <= frameCounter
    ensures CountsMatch(slots', queue, frameCounter)
  {
  }

  lemma LastInOrder(queue: seq<Item>, frameCounter: nat)
    requires InOrder(queue, frameCounter) && queue != []
    ensures queue[|queue| - 1].slot < NUM_BUFFER_SLOTS
  {
  }

  lemma EnqueueInOrder(queue: seq<Item>, item: Item, frameCounter: nat)
    requires InOrder(queue, frameCounter)
    requires item.frameNumber == frameCounter + 1 && item.slot < NUM_BUFFER_SLOTS
    ensures InOrder(Enqueue(queue, item), frameCounter + 1)
  {
  }

  lemma EnqueueCounts(queue: seq<Item>, item: Item, s: nat)
    ensures QueuedItems(Enqueue(queue, item), s) + (if Replaces(queue) then Counted(queue[|queue| - 1], s) else 0)
            == QueuedItems(queue, s) + Counted(item, s)
  {
    if Replaces(queue) {
      assert (queue[..|queue| - 1] + [item])[..|queue| - 1] == queue[..|queue| - 1];
    } else {
      assert (queue + [item])[..|queue|] == queue;
    }
  }

  lemma {:induction false} WithoutHeadCounts(queue: seq<Item>, s: nat)
    requires queue != []
    ensures QueuedItems(queue, s) == Counted(queue[0], s) + QueuedItems(queue[1..], s)
    decreases |queue|
  {
    var n := |queue|;
    if n > 1 {
      WithoutHeadCounts(queue[..n - 1], s);
      assert queue[..n - 1][1..] == queue[1..][..n - 2];
    }
  }

  function MarkStale(queue: seq<Item>): (r: seq<Item>)
    ensures |r| == |queue|
    ensures forall i :: 0 <= i < |queue| ==> r[i] == queue[i].(stale := true)
  {
    seq(|queue|, i requires 0 <= i < |queue| => queue[i].(stale := true))
  }

  lemma {:induction false} StaleCountsNothing(queue: seq<Item>, s: nat)
    requires forall i :: 0 <= i < |queue| ==> queue[i].stale
    ensures QueuedItems(queue, s) == 0
    decreases |queue|
  {
    if queue != [] {
      StaleCountsNothing(queue[..|queue| - 1], s);
    }
  }

  /** The last item gives way to the next one and still holds on to its slot. */
  predicate DropsLast(queue: seq<Item>) {
    Replaces(queue) && !queue[|queue| - 1].stale
  }

  /** The slots after the last item of the queue has given way to another one. */
  function WithoutLastItem(slots: seq<Slot>, queue: seq<Item>, sharedMode: bool): seq<Slot>
    requires DropsLast(queue) ==> queue[|queue| - 1].slot < |slots|
  {
    if DropsLast(queue) then
      var dropped := queue[|queue| - 1].slot;
      slots[dropped := GivenBack(slots[dropped].FreeQueued(), sharedMode)]
    else slots
  }

  /** The slots after the buffer of slot `s` was queued as frame `frameNumber`. */
  function AfterPut(slots: seq<Slot>, queue: seq<Item>, s: nat, frameNumber: nat, sharedMode: bool): seq<Slot>
    requires s < |slots| && (DropsLast(queue) ==> queue[|queue| - 1].slot < |slots|)
  {
    WithoutLastItem(slots[s := slots[s].Queue().(frameNumber := frameNumber)], queue, sharedMode)
  }

  /** Only the slot that is queued gets the frame number, one dequeued buffer less and one queued more, unless it makes
      room for itself; no buffer changes hands. */
  lemma PutNumbers(slots: seq<Slot>, queue: seq<Item>, s: nat, frameNumber: nat, sharedMode: bool)
    requires s < |slots| && slots[s].dequeued > 0 && (DropsLast(queue) ==> queue[|queue| - 1].slot < |slots|)
    ensures var after := AfterPut(slots, queue, s, frameNumber, sharedMode);
            && |after| == |slots| && after[s].frameNumber == frameNumber && after[s].dequeued == slots[s].dequeued - 1
            && (!(DropsLast(queue) && queue[|queue| - 1].slot == s) ==> after[s].queued == slots[s].queued + 1)
            && (forall t :: 0 <= t < |slots| ==> after[t].buffer == slots[t].buffer && after[t].acquired == slots[t].acquired)
            && forall t :: 0 <= t < |slots| && t != s ==> after[t].frameNumber == slots[t].frameNumber && after[t].dequeued == slots[t].dequeued
  {
  }

  lemma PutMatches(slots: seq<Slot>, queue: seq<Item>, item: Item, frameCounter: nat, sharedMode: bool)
    requires CountsMatch(slots, queue, frameCounter) && InOrder(queue, frameCounter)
    requires item.slot < |slots| == NUM_BUFFER_SLOTS && item.frameNumber == frameCounter + 1 && !item.stale
    ensures CountsMatch(AfterPut(slots, queue, item.slot, item.frameNumber, sharedMode), Enqueue(queue, item), frameCounter + 1)
  {
    hide InOrder, Enqueue, QueuedItems;
    if queue != [] {
      LastInOrder(queue, frameCounter);
    }
    forall x | 0 <= x < |slots|
      ensures AfterPut(slots, queue, item.slot, item.frameNumber, sharedMode)[x].queued == QueuedItems(Enqueue(queue, item), x)
    {
      EnqueueCounts(queue, item, x);
      LastCounts(queue, x);
    }
  }

  lemma LastCounts(queue: seq<Item>, s: nat)
    ensures queue != [] ==> QueuedItems(queue, s) >= Counted(queue[|queue| - 1], s)
  {
  }

  /** The slot of the last item is active, and nobody else holds it unless it is shared. */
  lemma LastIsQueued(slots: seq<Slot>, lists: Lists, queue: seq<Item>, frameCounter: nat)
    requires Placed(slots, lists) && CountsMatch(slots, queue, frameCounter) && InOrder(queue, frameCounter) && DropsLast(queue)
    ensures var s := queue[|queue| - 1].slot;
            && s < |slots| && s in lists.active && slots[s].buffer.Some? && slots[s].queued > 0
            && (slots[s].shared || (slots[s].dequeued == slots[s].acquired == 0 && slots[s].queued == 1))
  {
    var s := queue[|queue| - 1].slot;
    assert QueuedItems(queue, s) >= Counted(queue[|queue| - 1], s);
    assert lists.Allow(s, slots[s]);
  }

  /** Queueing keeps the slots partitioned: the slot stays active, and that of a dropped item becomes a free
      buffer unless it is shared. */
  lemma PutMoves(slots: seq<Slot>, lists: Lists, queue: seq<Item>, frameCounter: nat, s: nat, sharedMode: bool, lists': Lists)
    requires Placed(slots, lists) && CountsMatch(slots, queue, frameCounter) && InOrder(queue, frameCounter)
    requires s < |slots| && slots[s].dequeued > 0 && slots[s].buffer.Some?
    requires DropsLast(queue) ==> queue[|queue| - 1].slot < |slots|
    requires lists' == if DropsLast(queue) && !AfterPut(slots, queue, s, frameCounter + 1, sharedMode)[queue[|queue| - 1].slot].shared
                       then var last := queue[|queue| - 1].slot; lists.(active := lists.active - {last}, freeBuffers := lists.freeBuffers + [last])
                       else lists
    ensures Placed(AfterPut(slots, queue, s, frameCounter + 1, sharedMode), lists')
  {
    hide Placed, CountsMatch, InOrder, Fits;
    QueueingMoves(slots, lists, s, frameCounter + 1);
    if DropsLast(queue) {
      LastIsQueued(slots, lists, queue, frameCounter);
      var put := slots[s := slots[s].Queue().(frameNumber := frameCounter + 1)];
      var last := queue[|queue| - 1].slot;
      GivingBackMoves(put, lists, last, put[last].FreeQueued(), sharedMode, lists');
    }
  }

  /** Every slot that is in use gives up its buffer. */
  ghost predicate AllCleared(slots: seq<Slot>, lists: Lists, slots': seq<Slot>) {
    && |slots'| == |slots|
    && forall s :: 0 <= s < |slots| ==> slots'[s] == if s in lists.unused then slots[s] else slots[s].Clear()
  }

  lemma ClearingMoves(slots: seq<Slot>, lists: Lists, slots': seq<Slot>, lists': Lists)
    requires Placed(slots, lists) && AllCleared(slots, lists, slots')
    requires lists' == Lists(lists.freeSlots + lists.active + Elements(lists.freeBuffers), [], {}, lists.unused, lists.allocating)
    ensures Placed(slots', lists')
  {
    forall s | 0 <= s < NUM_BUFFER_SLOTS
      ensures lists'.Allow(s, slots'[s])
    {
      assert lists.Allow(s, slots[s]);
    }
  }

  lemma ClearedCounts(slots: seq<Slot>, lists: Lists, slots': seq<Slot>, queue: seq<Item>, frameCounter: nat)
    requires Placed(slots, lists) && AllCleared(slots, lists, slots')
    requires InOrder(queue, frameCounter) && CountsMatch(slots, queue, frameCounter)
    ensures InOrder(MarkStale(queue), frameCounter) && CountsMatch(slots', MarkStale(queue), frameCounter)
    ensures CountsMatch(slots', [], frameCounter)
  {
    forall s | 0 <= s < |slots|
      ensures slots'[s].queued == QueuedItems(MarkStale(queue), s) == 0 && slots'[s].frameNumber <= frameCounter
    {
      StaleCountsNothing(MarkStale(queue), s);
      assert lists.Allow(s, slots[s]);
    }
  }

  // ----- the consumer's side of the queue -----

  /** The first item leaves the queue; its slot is acquired unless the item is stale. */
  lemma TakingFirst(slots: seq<Slot>, lists: Lists, queue: seq<Item>, frameCounter: nat)
    requires Placed(slots, lists) && CountsMatch(slots, queue, frameCounter) && InOrder(queue, frameCounter) && queue != []
    ensures var s := queue[0].slot;
            && s < |slots| && InOrder(queue[1..], frameCounter)
            && (queue[0].stale ==> CountsMatch(slots, queue[1..], frameCounter))
            && (!queue[0].stale ==> s in lists.active && slots[s].queued > 0
                                    && Placed(slots[s := slots[s].Acquire()], lists)
                                    && CountsMatch(slots[s := slots[s].Acquire()], queue[1..], frameCounter))
  {
    var s := queue[0].slot;
    forall x | 0 <= x < |slots|
      ensures QueuedItems(queue, x) == Counted(queue[0], x) + QueuedItems(queue[1..], x)
    {
      WithoutHeadCounts(queue, x);
    }
    assert lists.Allow(s, slots[s]);
    if !queue[0].stale {
      Move(slots, lists, slots[s := slots[s].Acquire()], lists, s);
    }
  }

  /** The items of a queue that is only fed. */
  function EnqueueAll(queue: seq<Item>, items: seq<Item>): seq<Item>
    decreases |items|
  {
    if items == [] then queue else EnqueueAll(Enqueue(queue, items[0]), items[1..])
  }

  /** Fed only droppable frames, a queue grows by at most one item, and if it was empty or its last item
      was droppable it holds the newest frame in that item's place. */
  lemma {:induction false} DroppableFramesDoNotPileUp(queue: seq<Item>, items: seq<Item>)
    requires items != [] && forall i :: 0 <= i < |items| ==> items[i].droppable
    ensures EnqueueAll(queue, items)
            == (if Replaces(queue) then queue[..|queue| - 1] else queue) + [items[|items| - 1]]
    decreases |items|
  {
    var first := Enqueue(queue, items[0]);
    if |items| > 1 {
      DroppableFramesDoNotPileUp(first, items[1..]);
      assert first[..|first| - 1] == if Replaces(queue) then queue[..|queue| - 1] else queue;
    }
  }
}
