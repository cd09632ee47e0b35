/** Which frames reach the consumer, over whole runs of producer and consumer. */
module BufferDelivery {
  import opened BitSets
  import opened Options
  import opened BufferSlots
  import opened BufferFrames
  import opened BufferQueue

  /** The producer dequeues, requests and queues; the consumer takes the first frame and gives slots back. */
  datatype Call =
    | Dequeue(width: nat, height: nat, format: nat, usage: set<nat>)
    | Request(slot: int)
    | Queue(slot: int, input: QueueInput)
    | Acquire
    | Release(held: nat)

  /** A synchronous queue in which nothing may be dropped. */
  ghost predicate KeepsAll(q: BufferQueueProducer)
    reads q
  {
    && !q.asyncMode && !q.queueBufferCanDrop && !q.sharedBufferMode
    && forall i :: 0 <= i < |q.queue| ==> !q.queue[i].droppable
  }

  /** A queue whose frames may all be dropped for a newer one. */
  ghost predicate KeepsNewest(q: BufferQueueProducer)
    reads q
  {
    && (q.asyncMode || (q.queueBufferCanDrop && (q.legacyBufferDrop || q.consumerIsSurfaceFlinger)))
    && |q.queue| <= 1 && (q.queue != [] ==> q.queue[0].droppable)
  }

  /** The frame numbers that the consumer has taken and those it can still take. */
  ghost function Delivered(q: BufferQueueProducer): seq<nat>
    reads q
  {
    q.taken + Numbers(q.queue)
  }

  method QueueOne(q: BufferQueueProducer, slot: int, input: QueueInput) returns (told: seq<Callback>)
    requires q.Valid()
    modifies q`queue, q`frameCounter, q`dropped, q`nextCallbackTicket, q`bufferHasBeenQueued, q`sharedBufferSlot,
             q`activeBuffers, q`freeBuffers, q.slots
    ensures q.Valid() && |told| <= 1 && q.frameCounter == old(q.frameCounter) + |told|
    ensures told == [] ==> q.queue == old(q.queue) && q.dropped == old(q.dropped)
    ensures old(KeepsAll(q)) ==>
              KeepsAll(q) && q.dropped == old(q.dropped) && (told != [] ==> told == [FrameAvailable])
              && Delivered(q) == old(Delivered(q)) + if told == [] then [] else [q.frameCounter]
    ensures old(KeepsNewest(q)) ==> KeepsNewest(q) && (told != [] ==> q.queue != [] && q.queue[0].frameNumber == q.frameCounter)
  {
    hide BufferQueueProducer.Valid, BufferQueueProducer.QueueOutcome, BufferQueueProducer.DropsLater, Enqueue, Replaces, DropsLast, AfterPut;
    var status, frameNumber, ticket, replaced, callback := q.QueueBuffer(slot, input);
    told := if status == NoError then [callback] else [];
    if status == NoError && old(KeepsAll(q)) {
      OneMoreNumber(q.taken, old(q.queue), q.queue);
    }
  }

  lemma OneMoreNumber(taken: seq<nat>, before: seq<Item>, after: seq<Item>)
    requires |after| == |before| + 1 && after[..|before|] == before
    ensures taken + Numbers(after) == taken + Numbers(before) + [after[|before|].frameNumber]
  {
    assert Numbers(after) == Numbers(before) + [after[|before|].frameNumber];
  }

  /** The consumer takes the first frame, if there is one. */
  method AcquireOne(q: BufferQueueProducer)
    requires q.Valid()
    modifies q`queue, q`taken, q.slots
    ensures q.Valid() && Delivered(q) == old(Delivered(q))
    ensures old(KeepsAll(q)) ==> KeepsAll(q)
    ensures old(KeepsNewest(q)) ==> KeepsNewest(q)
    ensures q.queue == if old(q.queue) == [] then [] else old(q.queue)[1..]
  {
    hide BufferQueueProducer.Valid, Numbers;
    if q.queue != [] {
      OneLessNumber(q.taken, q.queue);
      var item := q.AcquireFirst();
    }
  }

  lemma OneLessNumber(taken: seq<nat>, queue: seq<Item>)
    requires queue != []
    ensures taken + [queue[0].frameNumber] + Numbers(queue[1..]) == taken + Numbers(queue)
  {
    assert Numbers(queue) == [queue[0].frameNumber] + Numbers(queue[1..]);
  }

  /** A slot that the consumer holds is given back. */
  method ReleaseOne(q: BufferQueueProducer, slot: nat)
    requires q.Valid()
    modifies q`activeBuffers, q`freeBuffers, q.slots
    ensures q.Valid()
  {
    hide BufferQueueProducer.Valid;
    if slot < q.slots.Length && q.slots[slot].acquired > 0 && q.slots[slot].buffer.Some? {
      q.Release(slot);
    }
  }

  /** A dequeue; a buffer that is missing is allocated at once. */
  method DequeueOne(q: BufferQueueProducer, call: Call)
    requires q.Valid() && call.Dequeue?
    modifies q`freeSlots, q`freeBuffers, q`activeBuffers, q`sharedBufferSlot, q`isAllocating, q`allocating, q.slots
    ensures q.Valid()
  {
    hide BufferQueueProducer.Valid, BufferQueueProducer.DequeueOutcome;
    var status, slot, needsAllocation, attached, age := q.DequeueBuffer(call.width, call.height, call.format, call.usage);
    if status == NoError && needsAllocation {
      status := q.FinishDequeue(slot, q.Wanted(call.width, call.height, call.format, call.usage), true);
    }
  }

  method Perform(q: BufferQueueProducer, call: Call) returns (told: seq<Callback>)
    requires q.Valid()
    modifies q`queue, q`frameCounter, q`taken, q`dropped, q`nextCallbackTicket, q`bufferHasBeenQueued, q`sharedBufferSlot,
             q`activeBuffers, q`freeBuffers, q`freeSlots, q`isAllocating, q`allocating, q.slots
    ensures q.Valid() && |told| <= 1 && q.frameCounter == old(q.frameCounter) + |told|
    ensures old(KeepsAll(q)) ==>
              KeepsAll(q) && q.dropped == old(q.dropped) && (told != [] ==> told == [FrameAvailable])
              && Delivered(q) == old(Delivered(q)) + if told == [] then [] else [q.frameCounter]
    ensures old(KeepsNewest(q)) ==> KeepsNewest(q) && (told != [] ==> q.queue != [] && q.queue[0].frameNumber == q.frameCounter)
    ensures old(KeepsNewest(q)) && told == [] ==> q.queue == [] || q.queue == old(q.queue)
  {
    hide BufferQueueProducer.Valid;
    told := [];
    match call {
      case Dequeue(_, _, _, _) => DequeueOne(q, call);
      case Request(slot) => var status, buffer := q.RequestBuffer(slot);
      case Queue(slot, input) => told := QueueOne(q, slot, input);
      case Acquire => AcquireOne(q);
      case Release(held) => ReleaseOne(q, held);
    }
  }

  /** The numbers of the frames that come after frame `n`. */
  ghost function Following(n: nat, count: nat): seq<nat> {
    seq(count, i requires 0 <= i < count => n + 1 + i)
  }

  lemma OneMoreFollows(n: nat, count: nat)
    ensures Following(n, count + 1) == Following(n, count) + [n + 1 + count]
  {
  }

  /** In a synchronous queue no frame is ever dropped or replaced: over every run the consumer is told of each
      frame and gets all of them in the order in which they were queued.  In asynchronous mode, or when frames may be
      dropped, at most one frame is waiting, and it is the newest. */
  method RunCalls(q: BufferQueueProducer, calls: seq<Call>) returns (told: seq<Callback>)
    requires q.Valid()
    modifies q`queue, q`frameCounter, q`taken, q`dropped, q`nextCallbackTicket, q`bufferHasBeenQueued, q`sharedBufferSlot,
             q`activeBuffers, q`freeBuffers, q`freeSlots, q`isAllocating, q`allocating, q.slots
    ensures q.Valid() && q.frameCounter == old(q.frameCounter) + |told|
    ensures old(KeepsAll(q)) ==>
              KeepsAll(q) && q.dropped == old(q.dropped) && (forall i :: 0 <= i < |told| ==> told[i] == FrameAvailable)
              && Delivered(q) == old(Delivered(q)) + Following(old(q.frameCounter), |told|)
    ensures old(KeepsNewest(q)) ==> KeepsNewest(q)
    ensures old(KeepsNewest(q)) && old(q.queue != [] ==> q.queue[0].frameNumber == q.frameCounter) ==>
              q.queue != [] ==> q.queue[0].frameNumber == q.frameCounter
  {
    hide BufferQueueProducer.Valid, Delivered;
    told := [];
    var n := 0;
    while n < |calls|
      invariant n <= |calls| && q.Valid() && q.frameCounter == old(q.frameCounter) + |told|
      invariant old(KeepsAll(q)) ==>
                  KeepsAll(q) && q.dropped == old(q.dropped) && (forall i :: 0 <= i < |told| ==> told[i] == FrameAvailable)
                  && Delivered(q) == old(Delivered(q)) + Following(old(q.frameCounter), |told|)
      invariant old(KeepsNewest(q)) ==> KeepsNewest(q)
      invariant old(KeepsNewest(q)) && old(q.queue != [] ==> q.queue[0].frameNumber == q.frameCounter) ==>
                  q.queue != [] ==> q.queue[0].frameNumber == q.frameCounter
    {
      var more := Perform(q, calls[n]);
      OneMoreFollows(old(q.frameCounter), |told|);
      told := told + more;
      n := n + 1;
    }
  }

  /** The same from the start: only if producer and consumer are both controlled by the application, and no call is
      to wait for a limited time, can a frame be dropped. */
  method RunFromTheStart(consumerIsSurfaceFlinger: bool, consumerControlledByApp: bool, producerControlledByApp: bool,
                         positiveTimeout: bool, defaults: Attributes, calls: seq<Call>)
    returns (q: BufferQueueProducer, status: Status, told: seq<Callback>)
    ensures fresh(q) && q.Valid() && q.frameCounter == |told|
    ensures status == NoError && !(consumerControlledByApp && producerControlledByApp && !positiveTimeout) ==>
              (forall i :: 0 <= i < |told| ==> told[i] == FrameAvailable)
              && q.dropped == [] && q.taken + Numbers(q.queue) == seq(|told|, i requires 0 <= i < |told| => i + 1)
    ensures status == NoError && consumerControlledByApp && producerControlledByApp && !positiveTimeout ==>
              |q.queue| <= 1 && (q.queue != [] ==> q.queue[0].frameNumber == q.frameCounter)
  {
    hide BufferQueueProducer.Valid;
    q := new BufferQueueProducer(consumerIsSurfaceFlinger, consumerControlledByApp, defaults);
    status := q.Connect(true, producerControlledByApp, positiveTimeout, positiveTimeout);
    told := RunCalls(q, calls);
  }
}
