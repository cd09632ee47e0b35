# Input and display pipeline

Four stateful parts of the display and input stack, modelled in the form in which the source has them (classes
whose methods update fields, an array heap sorted in place, linked lists of nodes) and proved against functions
and state machines on values.

**Touch pipeline** (`InputReader.cpp`). Raw events fill the slots of a multi-touch panel (`TrackingIds`); a sync
turns them into a sample whose pointers get ids, from tracking ids or by greedy matching over a binary heap
(`DistanceHeap`, `GreedyMatching`, `RawPointers`, `PointerIds`). In direct mode, samples are queued, fused with
an external stylus, cooked and sent as motion events (`TouchStream`, `TouchSafety`, `TouchRuns`,
`TouchContents`, `TouchMapper`, with examples in `TouchExamples`). In pointer mode a touch pad, a stylus or a
mouse drives a pointer (`PointerStream`, `Freeform`, `PointerGestures`, `GestureExamples`). A listener that
replays the events is part of the model: every event must make sense to it when it comes, and it must end up
knowing what the mapper knows; whoever keeps the last sample of each pointer has the raw sample of the panel.

**Producer of the buffer queue** (`BufferQueueProducer.cpp`). `BufferSlots` says what holds of 64 slots, their
lists and the queue, `BufferFrames` what becomes of each frame, and `BufferCore` what every operation makes of
both together; `BufferQueue` has the operations; `BufferRuns` draws the conclusions and has runs that reach the
exceptions; `BufferDelivery` says which frames reach the consumer over whole runs; `CallbackTickets` is the
ticket lock as a state machine over threads.

**Event hub** (`EventHubZizhan.cpp`). `DeviceLists` and `DeviceChanges` are tables, lists and changes as values,
`DeviceEvents` is the event stream and what a reader concludes from it, `DeviceRuns` has arbitrary runs,
`EventHub` the linked nodes and the loop of `getEvents`, `DeviceTurns` shows that the loop makes such runs, and
`DeviceLives` what becomes of each device by the polls alone. `DescriptorNonce` is the search for a free
descriptor and the history of the devices that got one.

**Reader of return commands** (`ComposerHalZizhan.cpp`, `HWC2Zizhan.cpp`). `CommandStream` says what a word
stream means, `CommandRoundTrip` that reading undoes writing, `FenceLedger` where each descriptor is,
`CommandReader` is the parser itself, and `ReleaseFences` takes its fences over.

## Where the code does less than one would expect

The model follows the code. In these places a property holds only under a condition; the condition is proved
exact, and nearly everywhere a concrete input or a run from the start shows that it can fail.

- The squared distance is stored in 48 bits: right if and only if the true one fits
  (`StoredDistanceIsExactWhenItFits`, `WrappedDistanceMisleads`).
- BUTTON_RELEASE looks ids of the last sample up in the tables of the current one (`FrameIsFaithfulIff`,
  `ReleaseNamesTheWrongPointer`).
- BUTTON_PRESS starts from the last button state, so releases of the same frame come back
  (`PressesReportCurrentIff`, `PressReportsAReleasedButton`).
- A freeform gesture whose fingers are all replaced in one frame, while the buttons change, sends a MOVE of no
  pointers (`DispatchPointerGestures`, `ReplaceAllFingers`).
- One flag stands for all allocations of buffers. The first of two to end clears it, so that a disconnect does
  not wait for the other one, which then puts its buffer into a free slot; a failed allocation leaves its slot
  free and active at once. An abandoned queue is not harmed, since abandoning gives up all buffers first
  (`FinishDequeue`, `DisconnectWhileAllocating`, `FailToAllocate`).
- A slot that is cancelled or released before its buffer is there becomes a free buffer without one
  (`CancelBuffer`, `CancelTooSoon`, `Release`), and a dequeue that finds the shared slot before its buffer is
  there uses one that is not (`DequeueBuffer`, `DequeueTheSharedTooSoon`).
- A slot that stayed shared after shared buffer mode can be detached while it is still queued (`DetachBuffer`,
  `DetachASharedBuffer`), and leaving the mode strands a shared slot that nobody holds (`SetSharedBufferMode`,
  `StrandASharedBuffer`).
- `setMaxDequeuedBufferCount` adjusts the slots by the difference of the limits and forgets that the old total
  may have been clamped (`SetMaxDequeuedBufferCount`, `CutByTheLimit`).
- The built-in keyboard is added under the alias 0 and removed under its own id (`ReportedUnderOneIdIff`,
  `BuiltInKeyboardIsTakenBackAsItself`); a controller that cannot be registered keeps its number for good
  (`OpenDevice`, `LoseANumber`).
- Descriptors of connected devices are the same if and only if both devices brought unique ids that agree
  together with vendor, product and name (`SameDescriptorIff`), which different unique ids can do
  (`DifferentUniqueIdsCollide`) unless vendor or product is known (`KnownDevicesDiffer`).
- `parse` reports success when the command it rejects is the last one (`SuccessIff`,
  `UnknownCommandIsNotReported`).
- CANCEL may be sent twice for the same touches; listeners take it as idempotent.

## How the runs are modelled

- A wait on a condition is a call that returns `MustWait` and can be made again; between two calls other steps
  may happen. An operation that tests something before the wait and not after it goes on from a method of its
  own (`DetachFirst`, `AttachWanted`, `DequeueWanted`). The source waits for the flag `mIsAllocating`, not for
  the allocations themselves; the model has both.
- The use of a buffer that is not there is an outcome of its own, `NullBuffer`.
- Calls into parts that are not in the repository are contracts: the consumer takes the head of the queue,
  releases slots and abandons the queue. `BufferQueueCore`, `BufferState`, `BufferQueueConsumer`, `BitSet32`,
  `KeyedVector`, `CommandReaderBase`, `GraphicBuffer` and `Fence` are not part of this model.
- Bit sets are sets of numbers that are listed in ascending order. Structures that the source embeds by value
  are datatypes; objects, arrays and nodes are on the heap.
- Floating-point geometry, speeds and policies are arbitrary choices or constant functions, so what is proved
  holds for all of them.

## Model

| member | source | states |
|---|---|---|
| DistanceHeap.RootIsLeast | osdi-artifact/source-code/InputReader.cpp:7069-7074 | In a min-heap no element is closer than the root, so consuming the root consumes a closest pair. |
| DistanceHeap.HoleMovesDown | osdi-artifact/source-code/InputReader.cpp:7028-7049 | Exchanging an element that is too far with the nearer of its children repairs its own place and can only break the order one level further down. |
| DistanceHeap.SiftDown | osdi-artifact/source-code/InputReader.cpp:7032-7048 | Restores the heap order from a parent on, keeps the elements with their multiplicity and leaves everything behind the heap alone. |
| DistanceHeap.Heapify | osdi-artifact/source-code/InputReader.cpp:7028-7049 | Bottom-up heapify makes a min-heap of the same elements. |
| DistanceHeap.LastToRoot | osdi-artifact/source-code/InputReader.cpp:7075-7077 | Moving the last element to the root drops exactly the old root and breaks the order only there. |
| DistanceHeap.PopRoot | osdi-artifact/source-code/InputReader.cpp:7077-7095 | Each pop leaves a min-heap of exactly the elements other than the root; termination and bounds included. |
| GreedyMatching.DistancesNeverDecrease | osdi-artifact/source-code/InputReader.cpp:7060-7132 | The distances of a greedy matching never decrease in the order in which the pairs were matched. |
| GreedyMatching.MutualNearestAreMatched | osdi-artifact/source-code/InputReader.cpp:7060-7132 | Two pointers that are closer to each other than either is to any other candidate are always matched with each other. |
| GreedyMatching.UniqueWithoutTies | osdi-artifact/source-code/InputReader.cpp:7060-7132 | Without equal distances there is only one complete greedy matching, so the result does not depend on the heap. |
| GreedyMatching.MatchingSize | osdi-artifact/source-code/InputReader.cpp:7060-7130 | A matching takes one current and one last pointer per pair: no pointer is matched twice. |
| GreedyMatching.ExtendGreedy | osdi-artifact/source-code/InputReader.cpp:7107-7130 | Adding the closest pair that is still free keeps the matching greedy. |
| RawPointers.GivingAnId | osdi-artifact/source-code/InputReader.h:534-540 | Giving a fresh id to a pointer keeps the ids a bijection with their table, and touching and hovering bits an exact split by hovering. |
| RawPointers.IdsAreABijection | osdi-artifact/source-code/InputReader.h:506-554 | In a complete sample the ids are distinct and at most 31, the index table is the inverse of the ids, and the two bit sets are disjoint. |
| PointerIds.StoredDistanceIsExactWhenItFits | osdi-artifact/source-code/InputReader.h:1449-1453 | The 48-bit field holds the true squared distance if and only if that is below 2^48, whatever the int32 subtraction did. |
| PointerIds.WrappedDistanceMisleads | osdi-artifact/source-code/InputReader.h:1449-1453 | Beyond that bound the stored order differs from the true one: a concrete far pair looks closer than a near one. |
| PointerIds.BuildHeap | osdi-artifact/source-code/InputReader.cpp:7002-7049 | The heap holds exactly the pairs of one current and one last pointer with the same tool type, in heap order. |
| PointerIds.TakeRoot | osdi-artifact/source-code/InputReader.cpp:7069-7109 | Taking the root away leaves the other candidates, and the root was closest of all. |
| PointerIds.NextMatch | osdi-artifact/source-code/InputReader.cpp:7069-7131 | The inner loop stops at the closest pair with both ends unmatched, or when no candidate is left that could be matched. |
| PointerIds.CarryIds | osdi-artifact/source-code/InputReader.cpp:7064-7132 | The outer loop gives each matched current pointer the id of its partner, the matching is greedy, and nothing more could be matched. |
| PointerIds.FillFreshIds | osdi-artifact/source-code/InputReader.cpp:7134-7147 | The fresh-id loop visits exactly the unmatched current pointers, in order, and gives each the smallest id not used so far. |
| PointerIds.NumberAll | osdi-artifact/source-code/InputReader.cpp:6974-6983 | When there were no pointers before, pointer j gets id j. |
| PointerIds.KeepOnlyId | osdi-artifact/source-code/InputReader.cpp:6985-6994 | The single-pointer shortcut keeps the id. |
| PointerIds.MatchAndFill | osdi-artifact/source-code/InputReader.cpp:6996-7148 | The general path is an assignment: greedy, maximal, partners keep their ids, and new pointers take the next free ones. |
| PointerIds.AssignPointerIds | osdi-artifact/source-code/InputReader.cpp:6963-7148 | On every path the current ids are a bijection onto ids of at most 31, nothing but ids changes, and they are an assignment of a complete greedy matching, of which the next three rows say what that means for the pointers. |
| PointerIds.ToolsAreMatchedApart | osdi-artifact/source-code/InputReader.cpp:7002-7132 | Partners have the same tool type, and of any current and last pointer of the same tool type at least one is matched. |
| PointerIds.MatchedKeepTheirIds | osdi-artifact/source-code/InputReader.cpp:7107-7130 | A matched pointer has the id of its partner. |
| PointerIds.NewPointersTakeTheLeast | osdi-artifact/source-code/InputReader.cpp:7134-7147 | An unmatched pointer has the least id that is neither kept by a matched one nor given to an unmatched one before it. |
| PointerIds.MatchesAreTrulyClosest | osdi-artifact/source-code/InputReader.cpp:6996-7132 | With all true squared distances below 2^48, no two pointers of one tool type that were both still unmatched were closer to each other than the pair that was matched. |
| TrackingIds.MultiTouchMotionAccumulator.ClearSlots | osdi-artifact/source-code/InputReader.cpp:1872-1879 | All slots are cleared and the given slot is selected. |
| TrackingIds.MultiTouchMotionAccumulator.Process | osdi-artifact/source-code/InputReader.cpp:1881-1966 | An event changes the slot it addresses and no other, by the slot number it carries or the one selected before, and a driver that follows the slots protocol keeps the tracking ids of the used slots distinct and non-negative. |
| TrackingIds.AxisSetsItsField | osdi-artifact/source-code/InputReader.cpp:1905-1963 | Each axis sets its own field of the slot and marks it as used; only a negative tracking id of the slots protocol ends a contact, and it leaves the other fields alone. |
| TrackingIds.ContactsAreInOrder | osdi-artifact/source-code/InputReader.cpp:7295-7317 | The contacts are the slots in use, in the order of the slots; only when 16 are full are later ones left out. |
| TrackingIds.MultiTouchMotionAccumulator.FinishSync | osdi-artifact/source-code/InputReader.cpp:1968-1972 | The slots protocol keeps its slots across a sync; without it they are cleared and no slot is selected. |
| TrackingIds.TrackedContacts | osdi-artifact/source-code/InputReader.cpp:7295-7317 | The contacts of a sample inherit distinct, non-negative tracking ids from the slots, also when more than 16 slots are in use. |
| TrackingIds.IdsDistinctIffContactsAre | osdi-artifact/source-code/InputReader.cpp:7344-7370 | Two contacts get the same pointer id if and only if they have the same tracking id. |
| TrackingIds.MultiTouchInputMapper.Reset | osdi-artifact/source-code/InputReader.cpp:7281-7287 | A reset forgets all pointer ids and clears all slots. |
| TrackingIds.MultiTouchInputMapper.IdForTracking | osdi-artifact/source-code/InputReader.cpp:7345-7359 | A known tracking id keeps its pointer id, a new one takes the first free id, and there is none only for a negative tracking id or when all 32 are taken. |
| TrackingIds.MultiTouchInputMapper.ScanSlots | osdi-artifact/source-code/InputReader.cpp:7295-7372 | The ids last for old and new contacts together: the scan is never short of one. |
| TrackingIds.MultiTouchInputMapper.SyncTouch | osdi-artifact/source-code/InputReader.cpp:7295-7379 | Ids are given exactly when all tracking ids are non-negative; then they form a complete sample iff the contacts differ, each contact of the last sample keeps its id, and the table holds just the current ones. |
| TrackingIds.MultiTouchInputMapper.SampleTells | osdi-artifact/source-code/InputReader.cpp:7319-7372 | Each contact becomes a pointer with its place and tool, an unknown tool being that of the buttons or a finger; it hovers if the buttons say so, or by its pressure where there is one, but never as a mouse, and its id is marked as hovering or touching accordingly. |
| TrackingIds.IdsGive | osdi-artifact/source-code/InputReader.cpp:7325-7379 | What a scan leaves behind makes a sample whose ids are a bijection iff the tracking ids are distinct. |
| TrackingIds.ConsecutiveSamplesKeepIds | osdi-artifact/source-code/InputReader.cpp:7344-7379 | Across two consecutive samples a pointer id is the same if and only if the tracking id is. |
| TouchSafety.UpIsLegal | osdi-artifact/source-code/InputReader.cpp:6854-6881 | A pointer going up names the rank of its id among those down, UP only for the last one, and the listener then holds the rest. |
| TouchSafety.UpsAreLegal | osdi-artifact/source-code/InputReader.cpp:5166-5178 | All ups of a frame take the listener from the dispatched set to what is left. |
| TouchSafety.TouchesAreLegal | osdi-artifact/source-code/InputReader.cpp:5124-5213 | dispatchTouches takes a listener that holds the last touching ids, through legal events only, to the current ones. |
| TouchSafety.HoverExitIsLegal | osdi-artifact/source-code/InputReader.cpp:5215-5230 | A hover exit is sent only to a hovering listener, and afterwards it hovers only if the mapper still does. |
| TouchSafety.HoverIsLegal | osdi-artifact/source-code/InputReader.cpp:5232-5258 | Hover enter is sent only to a listener that does not hover, hover moves only to one that does. |
| TouchSafety.ReleasesAreLegal | osdi-artifact/source-code/InputReader.cpp:5260-5277 | Button releases name a non-empty set of pointers that the listener knows. |
| TouchSafety.PressesAreLegal | osdi-artifact/source-code/InputReader.cpp:5279-5295 | Button presses name a non-empty set of pointers that the listener knows. |
| TouchSafety.FrameIsLegal | osdi-artifact/source-code/InputReader.cpp:4857-4880 | One frame of all five dispatchers is legal and takes the listener from the last touching set and hover state to the current ones; no event is empty as long as pressed buttons come with a pointer. |
| TouchRuns.CookedIsValid | osdi-artifact/source-code/InputReader.cpp:5304-5345 | A cooked sample finds each pointer under its own id, whatever stale entries the tables keep. |
| TouchRuns.StepIsLegal | osdi-artifact/source-code/InputReader.cpp:4857-4894 | A frame, a cancel or a reset sends only legal events and leaves the listener with the last touching set, or with nothing while the motion is aborted. |
| TouchRuns.StepGoesOn | osdi-artifact/source-code/InputReader.cpp:4857-4894 | After any legal stream one more frame, cancel or reset keeps it legal and the listener in step. |
| TouchRuns.RunIsLegal | osdi-artifact/source-code/InputReader.cpp:4857-4894 | For every sequence of frames, cancels and resets the whole stream is legal, and replaying it gives the id set and hover state that the mapper has. |
| TouchContents.RunIsRemembered | osdi-artifact/source-code/InputReader.cpp:4857-4894 | For every sequence of frames, cancels and resets: a listener that keeps the last sample it heard of each pointer has, for each touching id, the place, tool and shape of the raw pointer with that id, for each hovering one too while none touches, and the pressed buttons; it has nothing of touches that were cancelled. |
| TouchContents.FrameRemembered | osdi-artifact/source-code/InputReader.cpp:4857-4880 | One frame that is not aborted brings such a listener from the last samples to the current ones, whether ids came, went or stayed. |
| TouchContents.TouchesRemembered | osdi-artifact/source-code/InputReader.cpp:5124-5213 | After the touch events of a frame each touching pointer was last heard with its current sample: no move is missing. |
| TouchContents.FrameTells | osdi-artifact/source-code/InputReader.cpp:4857-4880 | Every event of a frame is true: a pointer that still touches comes with its new sample, one that goes up with its old one, hovering pointers with theirs, touch and hover events with the current buttons, and a button event names a button that changed. |
| TouchRuns.NeverHoversWhileTouching | osdi-artifact/source-code/InputReader.cpp:5215-5258 | At no point of a legal stream is a listener hovering and touching at once. |
| TouchRuns.NothingIsLeftDown | osdi-artifact/source-code/InputReader.cpp:4857-4894 | After a frame without pointers the listener has nothing down and does not hover. |
| TouchRuns.TouchesFaithful | osdi-artifact/source-code/InputReader.cpp:5124-5213 | Touch events carry for each id the sample of that very pointer. |
| TouchRuns.StaleLookup | osdi-artifact/source-code/InputReader.cpp:5260-5277 | Looking up an id of the last sample in the current tables finds that pointer iff it is still there or its old cell is past the new pointers. |
| TouchRuns.FrameIsFaithfulIff | osdi-artifact/source-code/InputReader.cpp:5260-5277 | All events of a frame carry their own samples if and only if no button is released or every pointer of the last sample is still found: BUTTON_RELEASE combines old ids with the new tables. |
| TouchExamples.ReleaseNamesTheWrongPointer | osdi-artifact/source-code/InputReader.cpp:5260-5277 | Two frames that reach the exception: a pointer leaves while its button is released, and the event carries the sample of the one that took its place. |
| TouchRuns.PressesReportCurrentIff | osdi-artifact/source-code/InputReader.cpp:5279-5295 | The last BUTTON_PRESS of a frame reports the current button state if and only if no button was released in the frame. |
| TouchExamples.PressReportsAReleasedButton | osdi-artifact/source-code/InputReader.cpp:5279-5295 | Two frames that reach this exception: one button is released while another is pressed, and the last event still reports both. |
| TouchMapper.CopyRawHasIds | osdi-artifact/source-code/InputReader.cpp:1711-1722 | A partial copy of a complete sample over any old one is complete again. |
| TouchMapper.MoreFates | osdi-artifact/source-code/InputReader.cpp:4730-4752 | Samples that are used or dropped are settled once each and in their order; using one again settles nothing. |
| TouchMapper.TouchInputMapper.constructor | osdi-artifact/source-code/InputReader.cpp:3399-3404 | A new mapper satisfies the invariant: its stream is legal, its key events alternate, nothing is queued or lost, and no timeout is set. |
| TouchMapper.TouchInputMapper.DispatchMotion | osdi-artifact/source-code/InputReader.cpp:6845-6890 | Sends the ids in ascending order with their samples; the index of a pointer going down or up is its rank; never called with no ids. |
| TouchMapper.TouchInputMapper.GatherPointers | osdi-artifact/source-code/InputReader.cpp:6851-6865 | Collects exactly the given ids, ascending, each with the sample its table entry leads to, and the place of the changed id. |
| TouchMapper.TouchInputMapper.DispatchButtonRelease | osdi-artifact/source-code/InputReader.cpp:5260-5277 | Sends one event per released button, from the last button state down. |
| TouchMapper.TouchInputMapper.DispatchButtonPress | osdi-artifact/source-code/InputReader.cpp:5279-5295 | Sends one event per pressed button, starting from the last button state. |
| TouchMapper.TouchInputMapper.DispatchHoverExit | osdi-artifact/source-code/InputReader.cpp:5215-5230 | Ends hovering exactly when it was announced and no longer holds. |
| TouchMapper.TouchInputMapper.DispatchHoverEnterAndMove | osdi-artifact/source-code/InputReader.cpp:5232-5258 | Announces hovering once and then moves. |
| TouchMapper.TouchInputMapper.UpdateMovedPointers | osdi-artifact/source-code/InputReader.cpp:6895-6921 | Overwrites exactly the samples of the given ids and tells whether one of them changed. |
| TouchMapper.TouchInputMapper.DispatchTouches | osdi-artifact/source-code/InputReader.cpp:5124-5213 | Sends the move or the ups, the move if needed, and the downs of the frame, and leaves the moved samples in the last state; TouchContents.TouchesRemembered says that every change of a sample is sent. |
| TouchMapper.TouchInputMapper.DispatchUps | osdi-artifact/source-code/InputReader.cpp:5166-5178 | One event per pointer going up, in ascending order, each with the pointers still down. |
| TouchMapper.TouchInputMapper.DispatchDowns | osdi-artifact/source-code/InputReader.cpp:5194-5211 | One event per pointer going down, in ascending order, each with the pointers down by then. |
| TouchMapper.TouchInputMapper.CookPointerData | osdi-artifact/source-code/InputReader.cpp:5304-5345 | The loop over the pointers makes the sample that the run model works with, without buttons when there is no pointer. |
| TouchMapper.TouchInputMapper.DispatchVirtualKey | osdi-artifact/source-code/InputReader.cpp:5093-5105 | A virtual key goes down only when none is down, and only that key goes up. |
| TouchMapper.TouchInputMapper.ConsumeRawTouches | osdi-artifact/source-code/InputReader.cpp:4992-5091 | Touches are consumed exactly while they belong to a virtual key or began outside the surface; the key events alternate, the key state is the next one, and a touch on the screen disables virtual keys for the quiet time. |
| TouchMapper.TouchInputMapper.VirtualKeyRules | osdi-artifact/source-code/InputReader.cpp:5010-5075 | With a touch: a key that is down stays while it is touched alone; else it goes up as cancelled, and a touch that begins outside the surface is consumed and, if alone on a key that is not dropped, presses it. |
| TouchMapper.TouchInputMapper.NoTouchRules | osdi-artifact/source-code/InputReader.cpp:4994-5009 | Without a touch a key that is down goes up, not cancelled, and nothing else is consumed. |
| TouchMapper.TouchInputMapper.DispatchFrame | osdi-artifact/source-code/InputReader.cpp:4861-4878 | The five dispatchers in their order send the events of the frame and leave the hover flag equal to the mapper hovering. |
| TouchMapper.TouchInputMapper.CookAndDispatch | osdi-artifact/source-code/InputReader.cpp:4771-4895 | Keeps stream, listener and key events in step, sends exactly the events of this step of the run model, and cooks the raw sample, empty if it was consumed. Unless the touches are cancelled, who heard all events then remembers the pointers of just this raw sample. |
| TouchMapper.TouchInputMapper.AbortTouches | osdi-artifact/source-code/InputReader.cpp:5107-5122 | Sends CANCEL iff pointers touch, and the listener then holds nothing until all pointers are up. |
| TouchMapper.TouchInputMapper.Reset | osdi-artifact/source-code/InputReader.cpp:4606-4638 | Empties all state and drops the queue; the device reset that follows leaves the listener with nothing. |
| TouchMapper.TouchInputMapper.DropPending | osdi-artifact/source-code/InputReader.cpp:4615-4615 | Every sample in the queue is dropped, and none is lost count of. |
| TouchMapper.TouchInputMapper.AssignExternalStylusId | osdi-artifact/source-code/InputReader.cpp:4924-4965 | Waits exactly for a first touch without stylus data before the timeout, sets that timeout once and asks for it each time, and gives up the stylus when it has passed; without a touch there is no stylus id, whatever the first bit of an empty set is. |
| TouchMapper.TouchInputMapper.CookUnlessWaiting | osdi-artifact/source-code/InputReader.cpp:4735-4748 | The head of the queue is either cooked or left untouched with a timeout set. |
| TouchMapper.TouchInputMapper.CookUntilWaiting | osdi-artifact/source-code/InputReader.cpp:4730-4749 | The loop cooks samples in order until one has to wait, and then a timeout is set and asked for. |
| TouchMapper.TouchInputMapper.CookAgain | osdi-artifact/source-code/InputReader.cpp:4755-4763 | The last sample goes through the cycle once more, with its own time. |
| TouchMapper.TouchInputMapper.DrainPending | osdi-artifact/source-code/InputReader.cpp:4730-4752 | A prefix of the queue is cooked, in order and once each; the rest waits for the stylus. |
| TouchMapper.TouchInputMapper.ProcessRawTouches | osdi-artifact/source-code/InputReader.cpp:4720-4769 | Queued samples are cooked once and in order, unless the first has to wait; afterwards a timeout is set and asked for exactly while something waits; an expired one drains the whole queue; the time of the last sample never decreases; a disabled device drops everything. |
| TouchMapper.TouchInputMapper.TimeoutExpired | osdi-artifact/source-code/InputReader.cpp:4967-4979 | An expired fusion timeout leaves nothing waiting and no timeout set; one that comes too early is asked for again, so it is never lost. |
| TouchMapper.TouchInputMapper.UpdateExternalStylusState | osdi-artifact/source-code/InputReader.cpp:4981-4990 | New stylus data restarts a queue that waits for it and otherwise changes no stream. |
| TouchMapper.TouchInputMapper.TakeSample | osdi-artifact/source-code/InputReader.cpp:4690-4712 | The sample gets its ids from the tracking ids, or else by greedy matching with the newest queued sample; it is complete iff no two tracked contacts share a tracking id. |
| TouchMapper.TouchInputMapper.Sync | osdi-artifact/source-code/InputReader.cpp:4678-4718 | A sync queues one complete sample after all earlier ones and cooks what does not have to wait: after an empty queue it waits iff it is a first touch and the connected stylus has no pressure yet. Over all runs the samples queued are those used or dropped, once each, followed by those still pending. |
| PointerStream.UpsAreLegal | osdi-artifact/source-code/InputReader.cpp:5715-5736 | The gesture pointers going up leave the listener with the rest. |
| PointerStream.DownsAreLegal | osdi-artifact/source-code/InputReader.cpp:5751-5770 | The gesture pointers going down leave the listener with all of them. |
| PointerStream.GestureFrame | osdi-artifact/source-code/InputReader.cpp:5612-5826 | A prepared gesture frame leaves the listener with exactly the pointers held down, and it is legal unless it moves while no old pointer remains. |
| PointerStream.SimpleIsLegal | osdi-artifact/source-code/InputReader.cpp:6706-6836 | In the stream of the simple pointer down and up, hover enter and exit pair up, and it is never down and hovering at once. |
| PointerStream.WhatTheSimplePointerTells | osdi-artifact/source-code/InputReader.cpp:6706-6836 | A pointer that is down moves, one that hovers moves hovering, a scroll is told, and down, up, enter and exit come exactly with the changes. |
| PointerStream.MovesOfFrame | osdi-artifact/source-code/InputReader.cpp:5701-5808 | The moves, hover moves and cancels that the events of a prepared frame contain. |
| Freeform.ImageSize | osdi-artifact/source-code/InputReader.cpp:6470-6575 | The fingers have no more gesture ids than there are fingers, so 32 ids suffice for old and new ones. |
| Freeform.SharedIds | osdi-artifact/source-code/InputReader.cpp:6470-6575 | Two consecutive freeform frames share a gesture pointer exactly where they share a finger. |
| Freeform.MapFingers | osdi-artifact/source-code/InputReader.cpp:6524-6565 | Mapped fingers keep their gesture ids, the others get ids not in use, the mapping is injective, and the ids never run out. |
| PointerGestures.PointerGesture.Reset | osdi-artifact/source-code/InputReader.h:1573-1595 | The gesture is neutral, holds no pointers and remembers no finger. |
| PointerGestures.PointerGesture.Decided | osdi-artifact/source-code/InputReader.cpp:6319-6445 | A gesture of several fingers only goes forward from press over swipe to freeform. |
| PointerGestures.PointerGesture.GestureRules | osdi-artifact/source-code/InputReader.cpp:5967-6240 | The next mode by the number of fingers and the button: tap or neutral, quiet, button drag, tap drag or hover, or one of the gestures of several fingers, each with its conditions on times and last mode. |
| PointerGestures.PointerGesture.QuietRules | osdi-artifact/source-code/InputReader.cpp:5937-5966 | When the quiet time begins, goes on and ends. |
| PointerGestures.PointerGesture.SeveralFingersRules | osdi-artifact/source-code/InputReader.cpp:6231-6460 | Which of press, swipe and freeform several fingers make, and that the last gesture is finished iff it was of another kind and cancelled iff it starts over or becomes freeform. |
| PointerGestures.PointerGesture.GoesOn | osdi-artifact/source-code/InputReader.cpp:5967-6460 | A gesture whose mode stays is not finished, and is cancelled only if a finger has landed. |
| PointerGestures.PointerGesture.PrepareTimeout | osdi-artifact/source-code/InputReader.cpp:5858-5887 | Only a tap whose drag interval has passed ends by timeout, and then nothing is held. |
| PointerGestures.PointerGesture.PickActiveTouch | osdi-artifact/source-code/InputReader.cpp:5915-5935 | There is an active finger exactly when there are fingers; it is kept while it is down, and the first finger sets the time. |
| PointerGestures.PointerGesture.CheckQuietTime | osdi-artifact/source-code/InputReader.cpp:5937-5966 | Quiet time lasts for its interval and begins when a gesture of several fingers or of a button is left half way. |
| PointerGestures.PointerGesture.PrepareQuiet | osdi-artifact/source-code/InputReader.cpp:5967-5982 | In quiet time nothing is held, and what was held is finished. |
| PointerGestures.PointerGesture.PrepareButton | osdi-artifact/source-code/InputReader.cpp:5983-6065 | A pressed button holds one pointer, id 0, and finishes any other gesture. |
| PointerGestures.PointerGesture.PrepareNoFingers | osdi-artifact/source-code/InputReader.cpp:6066-6140 | With no finger left the gesture is a tap exactly when the only finger went up in time and in place. |
| PointerGestures.PointerGesture.PrepareOneFinger | osdi-artifact/source-code/InputReader.cpp:6141-6230 | One finger hovers, unless it drags on or follows a tap in time; a finger on the empty pad starts the tap time. |
| PointerGestures.PointerGesture.PrepareManyFingers | osdi-artifact/source-code/InputReader.cpp:6231-6600 | Which gesture several fingers make and what is cancelled or finished for it; swipe and press hold pointer 0, and freeform one pointer per finger. |
| PointerGestures.PointerGesture.AssignFreeform | osdi-artifact/source-code/InputReader.cpp:6470-6575 | The freeform map is injective on the fingers with the held ids as its image, the active id is one of them, and fingers that stay keep theirs. |
| PointerGestures.PointerGesture.StartFreeform | osdi-artifact/source-code/InputReader.cpp:6483-6575 | The first freeform frame maps every finger; the active finger keeps the active id unless the gesture was cancelled. |
| PointerGestures.PointerGesture.ContinueFreeform | osdi-artifact/source-code/InputReader.cpp:6494-6575 | A later frame keeps the mapping of the fingers that stay, and picks a new active id when its finger is gone. |
| PointerGestures.PointerGesture.PrepareCase | osdi-artifact/source-code/InputReader.cpp:5907-5966 | A gesture of another kind makes the pad forget the finger a tap could come out of. |
| PointerGestures.PointerGesture.Prepare | osdi-artifact/source-code/InputReader.cpp:5853-6613 | The mode is what the decision table says, the held ids fit it, and a tap comes only from a finger that went down within the tap interval and since when there were one-finger gestures only. |
| PointerGestures.PointerGesture.Advance | osdi-artifact/source-code/InputReader.cpp:5810-5825 | Between frames the held ids are empty exactly in the neutral, quiet and hover modes. |
| PointerGestures.ActiveRemains | osdi-artifact/source-code/InputReader.cpp:6503-6575 | The active gesture id is among the current ids although fingers come and go. |
| PointerGestures.EmptyMoveIff | osdi-artifact/source-code/InputReader.cpp:5679-5699 | Two consecutive gestures that go on share no pointer iff both are freeform and all fingers were replaced. |
| PointerGestures.PointerModeMapper.SendGesture | osdi-artifact/source-code/InputReader.cpp:5701-5808 | Sends the ups or the cancel, the move, the downs and the hover move of a frame, in this order. |
| PointerGestures.PointerModeMapper.DispatchPointerGestures | osdi-artifact/source-code/InputReader.cpp:5612-5826 | The listener holds lastGestureIdBits afterwards, which are empty exactly in the neutral, quiet and hover modes. A gesture that goes on sends a MOVE of exactly the shared pointers when samples moved or buttons changed and there are such pointers, and no MOVE when neither did; hovering sends a hover move. The stream is legal unless all fingers of a running freeform gesture were replaced while the buttons changed. |
| PointerGestures.PointerModeMapper.SendPrepared | osdi-artifact/source-code/InputReader.cpp:5673-5808 | The stream is legal after a prepared frame iff it was before and the frame does not replace all freeform fingers while the buttons change. |
| PointerGestures.WhatIsSent | osdi-artifact/source-code/InputReader.cpp:5679-5808 | In terms of the pointers held before and now: a MOVE is sent for the shared ones, and for no others, when something changed; a CANCEL for exactly those held before iff the gesture is cancelled and not finished; hover moves when hovering and when the last pointer is let go. |
| GestureExamples.ReplaceAllFingers | osdi-artifact/source-code/InputReader.cpp:5685-5748 | A run from the start that reaches this exception: two fingers press, move apart and are replaced by two others while a button changes; a MOVE of no pointers is sent. |
| PointerGestures.PointerModeMapper.TimeoutExpired | osdi-artifact/source-code/InputReader.cpp:4967-4972 | Only a pending tap ends, with an UP and a hover move. |
| PointerGestures.PointerModeMapper.AbortPointerGestures | osdi-artifact/source-code/InputReader.cpp:5828-5851 | One CANCEL with all held gesture pointers, none if there are none, and a neutral gesture. |
| PointerGestures.PointerModeMapper.DispatchPointerSimple | osdi-artifact/source-code/InputReader.cpp:6706-6836 | The listener has the simple pointer in the given state afterwards, and is told of a move iff it is down, a hover move iff it hovers, and a scroll iff there is one. |
| PointerGestures.PointerModeMapper.DispatchPointerStylus | osdi-artifact/source-code/InputReader.cpp:6615-6648 | The first stylus makes the pointer down or hovering as it does itself; without one it is neither. |
| PointerGestures.PointerModeMapper.DispatchPointerMouse | osdi-artifact/source-code/InputReader.cpp:6650-6704 | A mouse makes the pointer down exactly while a button is pressed. |
| PointerGestures.PointerModeMapper.AbortPointerUsage | osdi-artifact/source-code/InputReader.cpp:5594-5610 | Whatever was active has ended: the listener knows of nothing. |
| PointerGestures.PointerModeMapper.DispatchPointerUsage | osdi-artifact/source-code/InputReader.cpp:5572-5592 | A change of usage ends the old stream before the new one starts, so the gesture stream and the simple stream are never active at once. |
| PointerGestures.PointerModeMapper.CookAndDispatch | osdi-artifact/source-code/InputReader.cpp:4808-4856 | Keeps for every run: the listener holds lastGestureIdBits, which are empty outside the modes that hold pointers, and the usage is that of the tool in sight. |
| PointerGestures.PointerModeMapper.CancelTouch | osdi-artifact/source-code/InputReader.cpp:6929-6932 | After a cancel the listener knows of nothing. |
| PointerGestures.PointerModeMapper.Reset | osdi-artifact/source-code/InputReader.cpp:4606-4638 | After a reset the listener knows of nothing. |
| PointerGestures.Classify | osdi-artifact/source-code/InputReader.cpp:4811-4846 | Sorts the pointers by tool; a stylus shuts out mice and fingers, and a mouse shuts out fingers. |
| PointerGestures.FewTouching | osdi-artifact/source-code/InputReader.cpp:4811-4846 | At most 16 touching pointers have ids. |
| PointerGestures.TapEnds | osdi-artifact/source-code/InputReader.cpp:5715-5808 | A finished tap sends an UP of pointer 0 and a hover move. |
| BufferSlots.HandingOutMoves | osdi-artifact/source-code/BufferQueueProducer.cpp:446-519 | A slot handed out becomes active and the partition of the slots stays. |
| BufferSlots.GivingBackMoves | osdi-artifact/source-code/BufferQueueProducer.cpp:1115-1127 | A slot given back becomes a free buffer unless it is shared; the partition stays if and only if it is shared or has a buffer. |
| BufferSlots.EnqueueInOrder | osdi-artifact/source-code/BufferQueueProducer.cpp:958-1000 | Frame numbers stay strictly increasing and only the last item can be droppable. |
| BufferSlots.EnqueueCounts | osdi-artifact/source-code/BufferQueueProducer.cpp:958-1000 | A slot is held by one more item when its own is queued and by one less when its item is replaced. |
| BufferSlots.PutMatches | osdi-artifact/source-code/BufferQueueProducer.cpp:850-1002 | After queueing, the queued count of every slot is again the number of its items that are not stale. |
| BufferSlots.ClearedCounts | osdi-artifact/source-code/BufferQueueProducer.cpp:1336-1337 | Freeing all buffers makes all items stale, and no slot is counted as queued any more. |
| BufferSlots.TakingFirst | osdi-artifact/source-code/BufferQueueProducer.cpp:958-1000 | Acquiring the head keeps order, counts and partition; its slot was active and queued unless the item is stale. |
| BufferSlots.DroppableFramesDoNotPileUp | osdi-artifact/source-code/BufferQueueProducer.cpp:958-1000 | Of any number of droppable frames fed to a queue exactly the last one stays, so from empty the queue never exceeds one item. |
| BufferCore.HandedFits | osdi-artifact/source-code/BufferQueueProducer.cpp:446-524 | The slot that was found goes to the producer, with its buffer or for one to be allocated, and everything stays consistent, also while other allocations are under way. |
| BufferCore.GivenBackFits | osdi-artifact/source-code/BufferQueueProducer.cpp:1115-1127 | Giving a slot back keeps the queue consistent if and only if the slot is still shared or has a buffer. |
| BufferCore.DetachedFits | osdi-artifact/source-code/BufferQueueProducer.cpp:633-636 | Detaching an active slot keeps the queue consistent if and only if no item of the queue stands for it. |
| BufferCore.FinishedFits | osdi-artifact/source-code/BufferQueueProducer.cpp:535-556 | Whatever became of the slot meanwhile: a new buffer fits iff the slot is active or a free buffer, and giving the slot up fits iff it is a free slot already. |
| BufferCore.PutFits | osdi-artifact/source-code/BufferQueueProducer.cpp:850-1002 | Queueing keeps slots, items, counts and frame numbers consistent, also when a droppable frame is replaced. |
| BufferCore.AllocatedFits | osdi-artifact/source-code/BufferQueueProducer.cpp:1468-1489 | A free slot that gets a buffer becomes the first free buffer. |
| BufferCore.FreedFits | osdi-artifact/source-code/BufferQueueProducer.cpp:1336-1337 | Giving up all buffers keeps the queue consistent while buffers are being allocated. |
| BufferCore.AbandonedFits | osdi-artifact/source-code/BufferQueueProducer.cpp:551-556 | Forgetting the queue afterwards loses no count of a frame. |
| BufferQueue.BufferQueueProducer.constructor | osdi-artifact/source-code/BufferQueueProducer.cpp:62-76 | A new queue satisfies the invariant and has as many slots in use as it may have buffers. |
| BufferQueue.BufferQueueProducer.AdjustAvailableSlots | osdi-artifact/source-code/BufferQueueProducer.cpp:171-174 | Slots move between unused and free all or nothing; slots in use by somebody are not touched. |
| BufferQueue.BufferQueueProducer.SetMaxDequeuedBufferCount | osdi-artifact/source-code/BufferQueueProducer.cpp:110-189 | Accepted exactly when the producer holds no more and the slots suffice; the slots in use still match the limits iff the old total was not clamped. |
| BufferQueue.BufferQueueProducer.SetAsyncMode | osdi-artifact/source-code/BufferQueueProducer.cpp:191-243 | Accepted exactly when the buffers fit and the slots can be adjusted; a refusal changes nothing. |
| BufferQueue.BufferQueueProducer.WaitForFreeSlot | osdi-artifact/source-code/BufferQueueProducer.cpp:263-365 | Which slot is found, or why none: it waits only when nothing is free and the producer is below its limit. |
| BufferQueue.BufferQueueProducer.TakeSlot | osdi-artifact/source-code/BufferQueueProducer.cpp:263-365 | The slot that is found leaves its list and is what that list says of its slots. |
| BufferQueue.BufferQueueProducer.RequestBuffer | osdi-artifact/source-code/BufferQueueProducer.cpp:80-108 | Only a dequeued slot yields its buffer; there is none exactly while one is still being allocated for it. |
| BufferQueue.BufferQueueProducer.TryDequeue | osdi-artifact/source-code/BufferQueueProducer.cpp:409-519 | One pass of the loop hands out the slot that was chosen, or gives up a free buffer that may not be replaced and tries again. |
| BufferQueue.BufferQueueProducer.HandOut | osdi-artifact/source-code/BufferQueueProducer.cpp:446-519 | The slot becomes active and dequeued; a buffer that does not fit is dropped for allocation, and the age is that of the frame it held. |
| BufferQueue.BufferQueueProducer.DequeueWanted | osdi-artifact/source-code/BufferQueueProducer.cpp:409-519 | The loop ends with the first fitting choice or the reason why there is none, and unfitting buffers that were given up became free slots. |
| BufferQueue.BufferQueueProducer.DequeueBuffer | osdi-artifact/source-code/BufferQueueProducer.cpp:369-519 | Every outcome of a dequeue: a slot handed out is active with a buffer as wanted or about to get one, and it is to get one iff its buffer is not there, has another size or format, or lacks a wanted use. A buffer to be allocated has to be requested again, and the age of one that is kept counts the frames since it was queued; a buffer that is not there is used exactly when the shared slot is chosen before its buffer has been allocated. |
| BufferQueue.BufferQueueProducer.WantedIs | osdi-artifact/source-code/BufferQueueProducer.cpp:412-428 | What a dequeue wants when it leaves size or format open: the defaults, and the uses of the consumer besides its own. |
| BufferQueue.BufferQueueProducer.FinishDequeue | osdi-artifact/source-code/BufferQueueProducer.cpp:522-560 | The invariant holds after an allocation if and only if its slot is still in use when it succeeded, or is a free slot already when it failed or the queue was abandoned; the flag is cleared even while other allocations are under way. |
| BufferRuns.DisconnectWhileAllocating | osdi-artifact/source-code/BufferQueueProducer.cpp:404-412 | A run from the start that reaches the failure: two dequeues allocate at once, the first to finish clears the flag, a disconnect does not wait, and the second one puts its buffer into a free slot. |
| BufferRuns.FailToAllocate | osdi-artifact/source-code/BufferQueueProducer.cpp:542-547 | A run from the start whose allocation fails: the slot is free and active at once. |
| BufferRuns.CancelTooSoon | osdi-artifact/source-code/BufferQueueProducer.cpp:1108-1127 | A run from the start in which a slot is cancelled before its buffer is there and becomes a free buffer without one. |
| BufferRuns.StrandASharedBuffer | osdi-artifact/source-code/BufferQueueProducer.cpp:1528-1538 | A run from the start that strands the shared slot. |
| BufferRuns.UsesNoBufferIff | osdi-artifact/source-code/BufferQueueProducer.cpp:459-466 | A dequeue past its limits uses a buffer that is not there if and only if there is a shared slot without one, and then that buffer is still being allocated. |
| BufferRuns.DequeueTheSharedTooSoon | osdi-artifact/source-code/BufferQueueProducer.cpp:459-466 | A run from the start that uses a buffer that is not there: in shared buffer mode a second dequeue comes while the shared buffer is being allocated. |
| BufferQueue.BufferQueueProducer.DetachBuffer | osdi-artifact/source-code/BufferQueueProducer.cpp:595-647 | Detaching keeps the invariant if and only if the slot is not queued, which only a slot left over from shared buffer mode can be. |
| BufferQueue.BufferQueueProducer.DetachNextBuffer | osdi-artifact/source-code/BufferQueueProducer.cpp:649-705 | Takes the first free buffer out of the queue and frees its slot. |
| BufferQueue.BufferQueueProducer.DetachFirst | osdi-artifact/source-code/BufferQueueProducer.cpp:681-703 | Past the wait, the first free buffer leaves the queue, whatever has changed during the wait. |
| BufferQueue.BufferQueueProducer.AttachBuffer | osdi-artifact/source-code/BufferQueueProducer.cpp:707-774 | An attached buffer gets a slot of its own, a free slot first, dequeued and requested. |
| BufferQueue.BufferQueueProducer.AttachWanted | osdi-artifact/source-code/BufferQueueProducer.cpp:739-770 | Past the checks, attaching takes the slot the wait finds, also a shared one. |
| BufferQueue.BufferQueueProducer.CancelBuffer | osdi-artifact/source-code/BufferQueueProducer.cpp:1082-1134 | A cancelled slot becomes a free buffer unless it is still shared; the invariant holds if and only if it is still shared or its buffer is there. |
| BufferQueue.BufferQueueProducer.PutInQueue | osdi-artifact/source-code/BufferQueueProducer.cpp:910-1002 | The frame gets the next number and replaces a droppable last one, whose slot is free again unless it is shared; it may itself be dropped later iff the queue is asynchronous, or frames may be dropped and the drop is the legacy one or the consumer is SurfaceFlinger, or the slot is the shared one. |
| BufferSlots.PutNumbers | osdi-artifact/source-code/BufferQueueProducer.cpp:911-921 | Only the slot that is queued gets the frame number, is dequeued once less and queued once more, and no slot loses its buffer. |
| BufferQueue.BufferQueueProducer.QueueBuffer | osdi-artifact/source-code/BufferQueueProducer.cpp:776-1022 | Queueing a requested, dequeued slot keeps the invariant and takes the next frame number and the next callback ticket; a refusal takes neither. The frame comes last, in place of a last one that may be dropped, which then counts as dropped and makes the callback a replacement; whether it may be dropped itself follows from the modes. |
| BufferQueue.BufferQueueProducer.Connect | osdi-artifact/source-code/BufferQueueProducer.cpp:1203-1293 | Connecting keeps the slot count consistent; an unknown API is refused only after the flags and slots were adjusted. |
| BufferQueue.BufferQueueProducer.FreeAllBuffers | osdi-artifact/source-code/BufferQueueProducer.cpp:1336-1337 | All slots in use become free slots without buffers, and all queued items stale. |
| BufferQueue.BufferQueueProducer.Disconnect | osdi-artifact/source-code/BufferQueueProducer.cpp:1295-1380 | A disconnect gives up all buffers and the shared slot, also those that are being allocated. |
| BufferQueue.BufferQueueProducer.SetSharedBufferMode | osdi-artifact/source-code/BufferQueueProducer.cpp:1528-1538 | Leaving shared buffer mode strands the shared slot if and only if nobody holds it then. |
| BufferQueue.BufferQueueProducer.AllocateBuffer | osdi-artifact/source-code/BufferQueueProducer.cpp:1467-1488 | A buffer allocated ahead of time turns the lowest slot that is free by then into the first free buffer; otherwise it is given up, and the flag is cleared. |
| BufferQueue.BufferQueueProducer.AcquireFirst | osdi-artifact/source-code/BufferQueueProducer.cpp:958-1000 | The consumer takes the head and its slot is acquired; the invariant stays. |
| BufferQueue.BufferQueueProducer.AcquireShared | osdi-artifact/source-code/BufferQueueProducer.cpp:968-984 | The consumer may acquire the shared slot again and again. |
| BufferQueue.BufferQueueProducer.Release | osdi-artifact/source-code/BufferQueueProducer.cpp:968-984 | A released slot becomes a free buffer unless it is still shared or held; the invariant holds if and only if it is shared or has a buffer. |
| BufferQueue.BufferQueueProducer.Abandon | osdi-artifact/source-code/BufferQueueProducer.cpp:545-557 | An abandoned queue has given up all its buffers, and its queued frames count as dropped. |
| BufferRuns.SlotsArePartitioned | osdi-artifact/source-code/BufferQueueProducer.cpp:245-261 | The four lists are disjoint and cover all 64 slots, free buffers have a buffer and free slots none, a held slot is active, and a slot that is not shared is held once. |
| BufferRuns.WaitsOnlyWhenAllAreHeld | osdi-artifact/source-code/BufferQueueProducer.cpp:263-365 | A dequeue has to wait only when the queue is overlong or every slot in use is held by somebody. |
| BufferRuns.DequeueRules | osdi-artifact/source-code/BufferQueueProducer.cpp:240-365 | Which slot a dequeue gets: the shared one, or the oldest free buffer, or the lowest free slot if there is none, or, where nothing may be allocated, the oldest free buffer that is as wanted; with none of them it waits or says that it would block. |
| BufferDelivery.RunCalls | osdi-artifact/source-code/BufferQueueProducer.cpp:935-1000 | In every run of dequeuing, requesting, queueing, acquiring and releasing, a synchronous queue drops and replaces no frame and the consumer gets all of them in order; an asynchronous queue, or one that may drop, never has more than one frame waiting, the newest. |
| BufferDelivery.RunFromTheStart | osdi-artifact/source-code/BufferQueueProducer.cpp:1203-1286 | The same for a new queue after a connect: frames can only be dropped if producer and consumer are both controlled by the application and no call waits for a limited time. |
| BufferFrames.StepAccounts | osdi-artifact/source-code/BufferQueueProducer.cpp:910-1002 | Queueing, acquiring, a disconnect and abandonment neither lose nor duplicate a frame number. |
| BufferFrames.FramesAreConserved | osdi-artifact/source-code/BufferQueueProducer.cpp:910-1002 | In every run, with disconnects and abandonment, each frame number is taken once, dropped once or still queued, and frames are taken in increasing order. |
| BufferRuns.DetachASharedBuffer | osdi-artifact/source-code/BufferQueueProducer.cpp:633-636 | A sequence of calls that reaches the exception of detaching: the queue then holds an item of a free slot. |
| BufferRuns.CutByTheLimit | osdi-artifact/source-code/BufferQueueProducer.cpp:158-178 | A run from the start in which the total is clamped and the slots in use no longer match the limits. |
| CallbackTickets.QueueKeepsHolders | osdi-artifact/source-code/BufferQueueProducer.cpp:1018-1019 | A new ticket has one holder and the tickets stay the range from current to next. |
| CallbackTickets.StepKeepsInv | osdi-artifact/source-code/BufferQueueProducer.cpp:1037-1058 | Each step of each thread keeps one holder per ticket, one callback at a time and the order of frames. |
| CallbackTickets.RunKeepsInv | osdi-artifact/source-code/BufferQueueProducer.cpp:1037-1058 | So does every interleaving. |
| CallbackTickets.CallbacksAreInOrder | osdi-artifact/source-code/BufferQueueProducer.cpp:1037-1058 | For every interleaving the frame callbacks run one at a time and in the order of frame numbers, with none left out. |
| CallbackTickets.SomeoneCanProceed | osdi-artifact/source-code/BufferQueueProducer.cpp:1037-1047 | Whenever a thread is waiting or calling back, some thread can proceed. |
| CallbackTickets.ServedInTurn | osdi-artifact/source-code/BufferQueueProducer.cpp:1037-1058 | A thread that gets its callback gets it at its own ticket and with its own frame. |
| DeviceEvents.EachDeviceLivesOnce | osdi-artifact/source-code/EventHubZizhan.cpp:860-1028 | In a legal stream the events of a device are ADDED, input, and REMOVED at most once, in this order. |
| DeviceEvents.BlocksAreClosed | osdi-artifact/source-code/EventHubZizhan.cpp:860-908 | A block of ADDED and REMOVED is followed at once by FINISHED_DEVICE_SCAN. |
| DeviceLists.TakeFits | osdi-artifact/source-code/EventHubZizhan.cpp:1690-1699 | Taking the lowest free controller number keeps every number with one owner or accounted for as lost. |
| DeviceLists.GiveFits | osdi-artifact/source-code/EventHubZizhan.cpp:1469-1473 | A number given to a new device belongs to it alone. |
| DeviceLists.ReleaseFits | osdi-artifact/source-code/EventHubZizhan.cpp:1701-1708 | A closed device frees exactly its own number. |
| DeviceLists.NumbersDiffer | osdi-artifact/source-code/EventHubZizhan.cpp:1690-1708 | No two connected controllers have the same number. |
| DeviceLists.NewIdFits | osdi-artifact/source-code/EventHubZizhan.cpp:1282-1283 | A new device id has never been used, listed or reported. |
| DeviceLists.OpenedFits | osdi-artifact/source-code/EventHubZizhan.cpp:1631-1635 | The opening list stays free of repetitions and inside the table of devices. |
| DeviceLists.ClosedFits | osdi-artifact/source-code/EventHubZizhan.cpp:1787-1837 | Closing keeps the closing list outside the table, and what the reader knows is unchanged. |
| DeviceLists.AllClosedFits | osdi-artifact/source-code/EventHubZizhan.cpp:1780-1785 | Closing all devices leaves exactly those to take back that the reader knows. |
| DeviceLists.TakenBackFits | osdi-artifact/source-code/EventHubZizhan.cpp:861-877 | Reporting a closed device is legal, and it is never reported under the alias. |
| DeviceLists.AnnouncedFits | osdi-artifact/source-code/EventHubZizhan.cpp:885-898 | Reporting an opened device is legal and makes it known. |
| DeviceLists.KnowsTheDevices | osdi-artifact/source-code/EventHubZizhan.cpp:860-908 | With nothing left to report the reader knows exactly the connected devices. |
| DeviceLists.InputFits | osdi-artifact/source-code/EventHubZizhan.cpp:980-1005 | Input of a connected, announced device is legal outside a block of announcements. |
| DeviceRuns.RunFits | osdi-artifact/source-code/EventHubZizhan.cpp:837-1077 | Every run of opening, closing, reporting and reading keeps all list, table and stream invariants. |
| DeviceRuns.EachDeviceIsReportedOnce | osdi-artifact/source-code/EventHubZizhan.cpp:837-1077 | In every run each device but the virtual keyboard is added once, then has input, then is removed, and it is known exactly while it should be. |
| DeviceRuns.ClosedUnannouncedLeavesNoTrace | osdi-artifact/source-code/EventHubZizhan.cpp:1787-1837 | A device closed before it was reported never appears in any event, however the run goes on. |
| DeviceRuns.ReportedUnderOneIdIff | osdi-artifact/source-code/EventHubZizhan.cpp:864-888 | Over all runs ADDED and REMOVED of a device carry the same id if and only if it was not eligible, or there was a built-in keyboard already, when it was opened. |
| DeviceRuns.BuiltInKeyboardIsTakenBackAsItself | osdi-artifact/source-code/EventHubZizhan.cpp:864-888 | A run in which they differ: the first keyboard is added as 0 and removed as itself. |
| DeviceTurns.TurnsAreARun | osdi-artifact/source-code/EventHubZizhan.cpp:857-1028 | Whatever the hub makes of scans, polls and notices in the turns of a call is a run of its steps. |
| DeviceTurns.ClosedUnannouncedIsNeverReported | osdi-artifact/source-code/EventHubZizhan.cpp:1787-1837 | So a device whose file goes before it was announced is in no event of any later call. |
| DeviceLives.CallCreates | osdi-artifact/source-code/EventHubZizhan.cpp:1018-1022 | By the polls alone: a file that a notice says was created, whose device opens, is handled and registers, is a connected device with the next free id, and its ADDED is among the events, unless the file is deleted or the device vanishes later in the call. |
| DeviceLives.CallFinds | osdi-artifact/source-code/EventHubZizhan.cpp:879-883 | So is every such file that a scan finds, and after a scan there is the virtual keyboard and the end of the scan has been told. |
| DeviceLives.CallKeeps | osdi-artifact/source-code/EventHubZizhan.cpp:913-1012 | A device that neither vanishes nor loses its file stays connected, and its input in the events is just what was read from it, in order. |
| DeviceLives.CallEnds | osdi-artifact/source-code/EventHubZizhan.cpp:1007-1012 | A device that vanishes, or the first one of a path that is deleted, is not connected afterwards, and its REMOVED is among the events if the reader knew it. |
| DeviceLives.CallDeletes | osdi-artifact/source-code/EventHubZizhan.cpp:1839-1887 | A path that belonged to one device, is deleted and does not come again belongs to none afterwards. |
| EventHub.Prepend | osdi-artifact/source-code/EventHubZizhan.cpp:1631-1635 | Putting a node in front keeps a linked list acyclic and adds just this node. |
| EventHub.Unlinked | osdi-artifact/source-code/EventHubZizhan.cpp:1820-1830 | Leading the node before past one node takes just that node out of the list. |
| EventHub.EventHub.AddDevice | osdi-artifact/source-code/EventHubZizhan.cpp:1631-1635 | The device is in the table and at the head of the opening list, with its controller number. |
| EventHub.EventHub.GetNextControllerNumber | osdi-artifact/source-code/EventHubZizhan.cpp:1690-1699 | The lowest free number plus one, or 0 exactly when all 32 are taken. |
| EventHub.EventHub.OpenDevice | osdi-artifact/source-code/EventHubZizhan.cpp:1211-1506 | What opening a device file does to ids, lists, paths and controller numbers; a number is lost if and only if a controller that got one cannot be registered. |
| EventHub.LoseANumber | osdi-artifact/source-code/EventHubZizhan.cpp:1469-1492 | A run in which a number is lost: the next controller, the only one there is, gets number 2. |
| EventHub.EventHub.CreateVirtualKeyboard | osdi-artifact/source-code/EventHubZizhan.cpp:1613-1629 | The virtual keyboard is opened under its reserved id. |
| EventHub.EventHub.FindOpening | osdi-artifact/source-code/EventHubZizhan.cpp:1809-1819 | The walk finds the device in the opening list exactly when it is there, and the node before it. |
| EventHub.EventHub.CloseDevice | osdi-artifact/source-code/EventHubZizhan.cpp:1787-1837 | A device not yet reported leaves the opening list, any other one enters the closing list; its controller number is free again. |
| EventHub.EventHub.CloseAllDevices | osdi-artifact/source-code/EventHubZizhan.cpp:1780-1785 | All devices are closed, the last key first. |
| EventHub.EventHub.CloseDeviceByPath | osdi-artifact/source-code/EventHubZizhan.cpp:1749-1755 | The first device with the path is closed, none if there is none. |
| EventHub.EventHub.ReportClosed | osdi-artifact/source-code/EventHubZizhan.cpp:861-877 | All closing devices are reported, in list order, and the list is empty. |
| EventHub.EventHub.ReportOpened | osdi-artifact/source-code/EventHubZizhan.cpp:885-898 | All opening devices are reported, in list order, and the list is empty. |
| EventHub.EventHub.ReportScanEnd | osdi-artifact/source-code/EventHubZizhan.cpp:900-908 | The end of the scan is reported exactly when it is due. |
| EventHub.EventHub.ScanDevices | osdi-artifact/source-code/EventHubZizhan.cpp:1104-1118 | Everything found is opened, and the virtual keyboard if it is not there. |
| EventHub.EventHub.ReadNotify | osdi-artifact/source-code/EventHubZizhan.cpp:1839-1887 | The changes in the device directory take effect in order. |
| EventHub.EventHub.PassInput | osdi-artifact/source-code/EventHubZizhan.cpp:988-1005 | All input of a device is passed on in order under the id it is reported by. |
| EventHub.EventHub.ProcessItem | osdi-artifact/source-code/EventHubZizhan.cpp:913-1012 | One poll item: input, a device that vanished, a notice or a wake-up; items of devices that are gone do nothing. |
| EventHub.EventHub.ProcessPending | osdi-artifact/source-code/EventHubZizhan.cpp:911-1013 | All poll items take effect in order, and devices changed exactly when one is to be taken back. |
| EventHub.EventHub.AnnounceChanges | osdi-artifact/source-code/EventHubZizhan.cpp:860-908 | Before any input is passed on all changes are reported and the block is closed. |
| EventHub.EventHub.Turn | osdi-artifact/source-code/EventHubZizhan.cpp:860-1028 | One turn reports, works off the items and then the notices; without changes the reader knows exactly the connected devices. GetEvents says what that means for each device. |
| EventHub.EventHub.GetEvents | osdi-artifact/source-code/EventHubZizhan.cpp:837-1077 | The items of all polls are worked off once and in order; on return the reader knows exactly the connected devices, or everything was closed for a reopen; nothing is returned only after a timeout or a wake-up. What became of each device follows from the polls: files created or found are connected and reported as added, devices not touched stay and all their input is passed on, and those that vanished or lost their file are gone and reported as removed. |
| EventHub.EventHub.Destroy | osdi-artifact/source-code/EventHubZizhan.cpp:303-311 | All devices are closed and both lists emptied. |
| DescriptorNonce.Hex4IsInjective | osdi-artifact/source-code/EventHubZizhan.cpp:656-684 | Four hex digits tell any two 16-bit numbers apart. |
| DescriptorNonce.RawDescriptorsSpelled | osdi-artifact/source-code/EventHubZizhan.cpp:656-684 | How the string is spelled with a unique id, with a nonce, and with a name or place when neither vendor nor product is known. |
| DescriptorNonce.NoncesDiffer | osdi-artifact/source-code/EventHubZizhan.cpp:656-684 | A device without a unique id has a different raw descriptor for every nonce. |
| DescriptorNonce.AsManyDescriptors | osdi-artifact/source-code/EventHubZizhan.cpp:656-684 | With an injective digest, n nonces give n descriptors. |
| DescriptorNonce.TakenNonces | osdi-artifact/source-code/EventHubZizhan.cpp:685-705 | By the pigeonhole principle no more nonces are taken than devices are connected. |
| DescriptorNonce.IsConnected | osdi-artifact/source-code/EventHubZizhan.cpp:763-772 | Tells whether a connected device has the descriptor. |
| DescriptorNonce.AssignDescriptor | osdi-artifact/source-code/EventHubZizhan.cpp:685-705 | The descriptor is new if and only if the device brought no unique id or the plain one is new; the search takes the first free nonce, within as many tries as there are devices plus one for an injective digest, and ends exactly if one is free. |
| DescriptorNonce.FewLeaveSomeFree | osdi-artifact/source-code/EventHubZizhan.cpp:693-702 | With an injective digest and fewer devices than nonces one nonce is free, so the search ends. |
| DescriptorNonce.Enter | osdi-artifact/source-code/EventHubZizhan.cpp:1278-1283 | A device that enters with an assigned descriptor is a step of the history. |
| DescriptorNonce.EnterAll | osdi-artifact/source-code/EventHubZizhan.cpp:1278-1283 | Devices that enter one after the other all find a nonce and make a history. |
| DescriptorNonce.SameRawIff | osdi-artifact/source-code/EventHubZizhan.cpp:656-684 | Two raw descriptors are the same iff vendor, product and the rest are. |
| DescriptorNonce.SameDescriptorIff | osdi-artifact/source-code/EventHubZizhan.cpp:685-705 | At any time of any history of devices that enter and leave, two of them have the same descriptor if and only if both brought a unique id and agree in vendor, product and the joined unique id and name. |
| DescriptorNonce.KnownDevicesDiffer | osdi-artifact/source-code/EventHubZizhan.cpp:685-705 | If vendor or product is known, that is: if and only if vendor, product and unique id are the same. |
| DescriptorNonce.DifferentUniqueIdsCollide | osdi-artifact/source-code/EventHubZizhan.cpp:656-684 | A history in which two devices with different unique ids have the same descriptor, because nothing separates its parts. |
| CommandStream.SuccessIff | osdi-artifact/source-code/ComposerHalZizhan.cpp:1175-1226 | On the words alone: success is reported if and only if they make whole commands and none but the last is rejected for its opcode, its length or a missing display; reading completes iff none is. |
| CommandStream.ExecuteIff | osdi-artifact/source-code/ComposerHalZizhan.cpp:1189-1222 | A command is rejected iff its opcode is unknown, its length is wrong, or it needs a display and none was selected. |
| CommandStream.UnknownCommandIsNotReported | osdi-artifact/source-code/ComposerHalZizhan.cpp:1175-1226 | A single command nobody knows counts as a success. |
| CommandStream.ReadKeepsPairs | osdi-artifact/source-code/ComposerHalZizhan.cpp:1253-1337 | Whatever is read, layers stay paired with their types, masks and fences. |
| CommandStream.ListsAppend | osdi-artifact/source-code/ComposerHalZizhan.cpp:1253-1337 | Two commands for a list of layers mean the same as one with both parts. |
| CommandStream.RequestsAppend | osdi-artifact/source-code/ComposerHalZizhan.cpp:1276-1299 | So do two commands for requests, of which the last mask counts. |
| CommandStream.PresentFenceIsNew | osdi-artifact/source-code/ComposerHalZizhan.cpp:1301-1314 | A present fence is a new descriptor iff its handle has one, and takes the place of the last one, which is closed. |
| CommandStream.SelectingAgainKeeps | osdi-artifact/source-code/ComposerHalZizhan.cpp:1228-1237 | A display that is selected again goes on with what it has; a new one starts empty. |
| CommandRoundTrip.ReadCommand | osdi-artifact/source-code/ComposerHalZizhan.cpp:1175-1226 | An accepted command consumes exactly its declared words. |
| CommandRoundTrip.TriplesDecode | osdi-artifact/source-code/ComposerHalZizhan.cpp:1253-1337 | Layers and values survive being written as three words each. |
| CommandRoundTrip.FencesDecode | osdi-artifact/source-code/ComposerHalZizhan.cpp:1316-1337 | The fences read are those of the handles that were written, duplicated in order. |
| CommandRoundTrip.ReadErrors | osdi-artifact/source-code/ComposerHalZizhan.cpp:1239-1251 | Errors are read with their place first and their signed number second, in order. |
| CommandRoundTrip.ReadDisplay | osdi-artifact/source-code/ComposerHalZizhan.cpp:1228-1346 | Reading the encoding of one display's results rebuilds them. |
| CommandRoundTrip.ReadDisplays | osdi-artifact/source-code/ComposerHalZizhan.cpp:1228-1346 | So does reading those of several displays, one after the other. |
| CommandRoundTrip.RoundTrip | osdi-artifact/source-code/ComposerHalZizhan.cpp:1175-1346 | Parsing the encoding of any results of different displays succeeds and gives exactly these results for exactly these displays, with the errors, their places and their numbers in the order in which they were written. |
| FenceLedger.EachFenceIsInOnePlace | osdi-artifact/source-code/ComposerHalZizhan.cpp:1301-1365 | Each descriptor read is held in one place, handed out or closed, exactly one of the three, and closed at most once. |
| FenceLedger.PresentConserves | osdi-artifact/source-code/ComposerHalZizhan.cpp:1301-1314 | A new present fence closes the one it replaces, once. |
| FenceLedger.ReleasesConserve | osdi-artifact/source-code/ComposerHalZizhan.cpp:1316-1337 | Reading release fences adds each new descriptor in one place. |
| FenceLedger.HandReleases | osdi-artifact/source-code/ComposerHalZizhan.cpp:1427-1441 | Taking the release fences moves all of them to the caller. |
| FenceLedger.HandPresent | osdi-artifact/source-code/ComposerHalZizhan.cpp:1443-1455 | Taking the present fence moves it to the caller. |
| FenceLedger.ExecuteConserves | osdi-artifact/source-code/ComposerHalZizhan.cpp:1228-1346 | Every accepted command keeps the descriptors conserved. |
| CommandReader.CommandReader.BeginCommand | osdi-artifact/source-code/ComposerHalZizhan.cpp:1179-1187 | Reads a header; a command longer than the stream is put back. |
| CommandReader.CommandReader.ParseSelectDisplay | osdi-artifact/source-code/ComposerHalZizhan.cpp:1228-1237 | Results of a new display start empty, those of a known one go on. |
| CommandReader.CommandReader.ParseSetError | osdi-artifact/source-code/ComposerHalZizhan.cpp:1239-1251 | An error is recorded with its place. |
| CommandReader.CommandReader.ParseSetChangedCompositionTypes | osdi-artifact/source-code/ComposerHalZizhan.cpp:1253-1274 | Layers and types are appended in pairs; a length that is no multiple of three, or no display, is rejected unread. |
| CommandReader.CommandReader.ParseSetDisplayRequests | osdi-artifact/source-code/ComposerHalZizhan.cpp:1276-1299 | Mask, layers and request masks are appended; any other length is rejected unread. |
| CommandReader.CommandReader.ParseSetPresentFence | osdi-artifact/source-code/ComposerHalZizhan.cpp:1301-1314 | The fence takes the place of the old one, which is closed. |
| CommandReader.CommandReader.ParseSetReleaseFences | osdi-artifact/source-code/ComposerHalZizhan.cpp:1316-1337 | Layers and fences are appended in pairs. |
| CommandReader.CommandReader.ParseSetPresentOrValidateDisplayResult | osdi-artifact/source-code/ComposerHalZizhan.cpp:1339-1346 | The state of the current display is set. |
| CommandReader.CommandReader.ParseOne | osdi-artifact/source-code/ComposerHalZizhan.cpp:1177-1222 | One command with its header: the rest is read from where it ends. |
| CommandReader.CommandReader.Parse | osdi-artifact/source-code/ComposerHalZizhan.cpp:1175-1226 | The loop computes what reading all words means and reports success as specified; pairs and descriptors are kept. |
| CommandReader.CommandReader.ResetData | osdi-artifact/source-code/ComposerHalZizhan.cpp:1348-1365 | Nothing is kept; every descriptor is closed or was handed out, none twice. |
| CommandReader.CommandReader.CloseDisplay | osdi-artifact/source-code/ComposerHalZizhan.cpp:1352-1361 | Each fence of the display is closed once. |
| CommandReader.CommandReader.TakeErrors | osdi-artifact/source-code/ComposerHalZizhan.cpp:1367-1370 | The errors go to the caller, once. |
| CommandReader.CommandReader.HasChanges | osdi-artifact/source-code/ComposerHalZizhan.cpp:1372-1389 | The two counts are also the numbers of layers, and there are changes iff one of them is positive. |
| CommandReader.CommandReader.TakeChangedCompositionTypes | osdi-artifact/source-code/ComposerHalZizhan.cpp:1391-1406 | As many types as layers go to the caller, and none stay. |
| CommandReader.CommandReader.TakeDisplayRequests | osdi-artifact/source-code/ComposerHalZizhan.cpp:1408-1425 | As many masks as layers go to the caller, and none stay. |
| CommandReader.CommandReader.TakeReleaseFences | osdi-artifact/source-code/ComposerHalZizhan.cpp:1427-1441 | As many fences as layers go to the caller, who owns them now; none of them had been handed out before. |
| CommandReader.CommandReader.TakePresentFence | osdi-artifact/source-code/ComposerHalZizhan.cpp:1443-1455 | The fence goes to the caller, once. |
| ReleaseFences.StoreReleaseFences | osdi-artifact/source-code/HWC2Zizhan.cpp:553-582 | Every descriptor is stored with the first mention of its layer or closed, exactly once; an unknown layer closes all of them and changes no result. |
| ReleaseFences.CloseStored | osdi-artifact/source-code/HWC2Zizhan.cpp:553-582 | Destroying a map of fences closes each of them once. |
| ReleaseFences.CloseAll | osdi-artifact/source-code/HWC2Zizhan.cpp:566-577 | On the way out at an unknown layer every descriptor, stored or not, is closed once. |
| ReleaseFences.HeldAreDistinct | osdi-artifact/source-code/ComposerHalZizhan.cpp:1316-1337 | The release fences held for a display are different descriptors. |
| ReleaseFences.GetReleaseFences | osdi-artifact/source-code/HWC2Zizhan.cpp:553-582 | The fences leave the reader and each is stored with a layer or closed, exactly once, also when a layer is unknown. |

## Left out

- PointerIds.MatchesAreTrulyClosest: assumes true squared distances below 2^48, because beyond that the stored distances wrap (see WrappedDistanceMisleads).
- TouchMapper.TouchInputMapper.Sync: assumes that tracked contacts differ in their tracking ids, as the protocol of the kernel has it; TakeSample shows that the sample is complete exactly then, and an incomplete one is not followed further.
- TouchMapper.TouchInputMapper.CookAndDispatch: in direct mode only; the samples are positions and an opaque shape, without calibration, orientation, the pressure and tool type of an external stylus and the keys synthesised from buttons.
- TouchMapper.TouchInputMapper.ConsumeRawTouches: whether a point is inside the surface, which key it hits and whether the key is dropped are constant functions; the time until which keys are disabled is kept but does not feed back into them.
- TouchMapper.TouchInputMapper.Reset: includes the device reset that the input device announces right afterwards.
- PointerGestures.PointerModeMapper.CookAndDispatch: ids, modes and states of the pointers, not their coordinates and properties.
- PointerGestures.PointerGesture.Prepare: distances, speeds and directions are the fields of `Geometry`, chosen freely for each frame.
- BufferQueue.BufferQueueProducer.WaitForFreeSlot: without a dequeue timeout; a timed wait can end with TIMED_OUT instead of going on, and changes nothing then.
- BufferQueue.BufferQueueProducer.Connect: a missing consumer counts as an abandoned queue, and linking to the death of the producer is left out.
- BufferQueue.BufferQueueProducer.AllocateBuffer: one turn of the loop; whether the wanted attributes are still right is a parameter, and a caller that goes on calls it again.
- BufferDelivery.RunCalls: runs of dequeue, request, queue, acquire and release only; a missing buffer is allocated at once, and the consumer gives back only slots that it holds and that have a buffer.
- CallbackTickets.RunKeepsInv: tickets are unbounded; the wrap-around of the source's 32-bit numbers is left out.
- EventHub.EventHub.GetEvents: assumes that the caller's buffer does not fill; devices found by a scan and the results of the waits are parameters, and errors of a poll are left out.
- EventHub.EventHub.ReportClosed: does not stop at a full buffer.
- EventHub.EventHub.ReportOpened: does not stop at a full buffer.
- EventHub.EventHub.ProcessItem: without video devices, and all input of an item fits the buffer.
- EventHub.EventHub.ProcessPending: no item is read again for want of room in the buffer.
- EventHub.EventHub.ScanDevices: without the directory of video devices.
- EventHub.EventHub.ReadNotify: without notices of video devices.
- EventHub.EventHub.OpenDevice: classes, key maps and ioctls are reduced to whether the file opens, the device is handled, may be the built-in keyboard, is a controller and registers.
- DescriptorNonce.AssignDescriptor: assumes that some nonce is free, without which the search of the source does not end; FewLeaveSomeFree says when that is so.
- CommandReader.CommandReader.Parse: descriptors are numbered as they are duplicated; opcode numbers and the layout of a header are those of the unseen base class, chosen freely.
- Reconfiguration of the input reader: it resets without clearing the last state; the device mode is fixed in a run.
- Pointer velocity, spots and presentation, wheel and scroll amounts, statistics, dumps and policy flags of the input reader.
- Single-touch panels, keyboards, joysticks, switches, vibrators and rotary encoders: other mappers of the same reader, without shared state.
- `query`, sideband streams, generation numbers, dequeue timeouts, the last queued buffer, frame timestamps and fences of the buffer queue: setters and getters beside the slots.
- Video devices, enabling and disabling, LEDs, key maps and axis queries of the event hub: they do not touch the device lists.
- The rest of the composer and of HWC2: forwards to a service.
- `GLESRenderEngine.cpp`, `Surface.h`, the window dispatcher and the DRM headers: calls into drivers and a list walk.
