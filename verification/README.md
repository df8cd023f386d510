# Verified models of the server's queues, codecs and channels

Four parts of the server carry most of its state and arithmetic. Each is modelled here in Dafny, step
by step as the code does it, and proved against a plain specification: a sequence, a map, a message.

1. **The lock-free queue behind the actor mailboxes** and the actor system on top of it. Atomic steps of any
   number of threads, in every interleaving, under sequential consistency.
   - `FreeList` (reference-counted list of blocks), `Tickets` (the counters that decide how many elements may
     be claimed), `BlockRing` (explicit producer: circular list of blocks and its index), `BlockIndex` (implicit
     producer: rotating block index whose entries are reused, with blocks given back), `Queue` (tickets and implicit
     producer together), `BlockingQueue` (lightweight semaphore and blocking queue), `Actors` (registry, mailboxes,
     shutdown). `QueueCalls`, `BlockingCalls`, `ActorCalls` and `ActorProgress` show that calls achieve what they are
     made for, and can go through.
2. **The Lua protobuf runtime.** `Table` (chained scatter hash table), `Names` (interned strings and their
   cache), `Fields` (the two indexes of a message type, and the pool), `Varint`, `Wire` (skipping and groups),
   `Buffer`, `Pack` (format strings), `Message` (what encoding and decoding compute), `MessageCode` (the
   buffer and cursor code that computes it), `Strict` and `Strays` (what the decoder lets pass) and `Encoded` (that the
   encoder needs none of it). `WireForms`, `Presence`, `Variants` and `PackForms` state the bytes and what they are read as
   without this code's own encoder or decoder: the numbers the format prescribes, which fields leave bytes, and what
   becomes of bytes that others have written.
3. **The connection byte pipeline.** `Ring` (bounded byte ring), `Framing` (headers and frames), `Channel`
   (sending half, receiving half, and both end to end).
4. **The luban `ByteBuf` codec.** `LubanBuf`, and `LubanForms` (its integers byte by byte).

`Common`, `Words` (32- and 64-bit words), `Modular` (remainders) and `Blocks` (index arithmetic of the queue) are
shared. Integers are unbounded in Dafny; where the code relies on a word size, reduction is written out
(`U32`, `U64`, `Signed32`, `Sum`).

Code that changes objects is a class with methods; its `ensures` clauses name the new state as a function of the
old one, and the lemmas prove what that function keeps. The concurrent parts are state machines: a `State`, the
step of each program counter, and theorems about every run (`Run`, `Behavior`). In `BlockRing` and `BlockIndex` the
producer object exists in both forms: what a method does to the state is a run of the state machine (`Leads`).

`dafny verify dfyconfig.toml` checks everything.

## Findings

Where the code does not do what one would expect, the failing input is proved to fail, and the exact condition
under which the code meets the expectation is proved for all inputs.

- **Resizing can overwrite key 0** (engine-lua/pb.h:900-921). Every empty slot of the old table is inserted again
  under key 0. `Table.ZeroSurvivesResize`: key 0 keeps its payload if and only if the payload is NULL or every other
  slot is in use. `Table.ZeroCanBeLost` is a run of insertions and one clear in place that ends in such a loss.
- **A direct `Actor::execute` can lose its work** (core/actor/Actor.h:48-74, core/actor/Actor.cpp:48-86). The running
  flag is tested before the enqueue, and the actor's thread may leave in between. `Actors.AllDoneIffNoneTooLate`:
  everything accepted from a sender was run if and only if no direct call of that sender entered after the actor's
  thread had looked at its queue for the last time. `Actors.StopAllLosesNothing`: a caller is safe if all its direct
  calls have entered before `stopAll` is called. `Actors.DirectExecuteCanLoseATask` is a losing run. Calls
  through the registry never lose anything (`Actors.RegisteredTasksAreRun`).
- **Names of 2^16 bytes and more are never found** (engine-lua/pb.h:1019-1064): the stored length has 16 bits.
  `Names.FoundIffShort` is the condition, `Names.InternTwice` ends with two entries for one text.
- **luban sizes of 2^31 and more become negative** (code-gen/luban/ByteBuf.h:690-702, 729-741, 792-817).
  `LubanBuf.RecordIffSizeIsSmall`: for a non-negative limit, unmarshalling does what it should if and only if the size
  is below 2^31, which the first two bytes show (`LubanBuf.HugeSizeIsNegative`). `LubanBuf.HugeRecordIsAccepted`: the
  bytes f0 80 00 00 00 are accepted and move the read index to -2147483643. `LubanBuf.StringIffEndFits`: strings and
  skipped bytes are right if and only if the announced end is a 32-bit index; `LubanBuf.HugeStringIsThrown` and
  `LubanBuf.LargeStringOverruns` are failing inputs. `LubanBuf.FailureAndTheIndex`: a failed `readString` leaves the
  index alone exactly if the size could not be read.
- **Skipping is more tolerant than reading** (engine-lua/pb.h:412-426, 584-590). A skipped varint may have any
  length, a read one at most ten bytes: `Wire.SkippedButNotRead`.
- **Failed skips and broken tags are ignored** (engine-lua/pb.c:1764-1784). After an unknown field that cannot be
  skipped decoding goes on behind its tag, and bytes that are no tag count as the end. `Strict.FailedSkipIsIgnored`:
  2a 64 08 07 is accepted, although field 5 announces a hundred bytes that are not there;
  `Strict.BrokenTagIsIgnored`: so is 88. `Strict.MessageIsStrict`: the decoder agrees with one that has errors in these
  places if and only if the bytes are a message of the wire grammar, at every level of nesting, and
  `Strict.AcceptedIffFlawed` names the flaw that an accepted message has otherwise. `Encoded.StrictReadsEncoded`: what
  the encoder writes has none.
- **Unknown fields of a map entry are not skipped** (engine-lua/pb.c:1728-1735): their values are read as tags and
  fields of the entry. `Strays.WrongKey`: an entry 1, 5 with a varint field 3 of value 8 enters the map as 16, 0.
  `Strays.HarmlessIffPassedOver`: the bytes of such a value do no harm, whatever follows, if and only if they are
  whole tags, none of them numbered 1 or 2. For a varint that is a condition on its value (`Strays.VarintIsHarmless`),
  for a record one on its length and its payload (`Strays.RecordIsHarmless`): eight to 23 bytes always do harm.
- **The wire type of a map field is not looked at** (engine-lua/pb.c:1718-1725): a map entry is read behind any tag with
  the field's number (`Variants.MapTakesAnyWireType`). All other fields refuse the wire types that are not theirs
  (`Variants.OtherWireTypeFails`).
- **Frames shorter than their header are taken** (transport/Channel.h:123-149), if and only if the length field plus 4
  is less than the header's length: `Framing.ShortFrameIsTaken`. They give a message without a body.
- **Client headers have 12 bytes**; the comment in transport/Channel.h:42-46 says 8. The model follows the code.

## Model

| member | source | states |
|---|---|---|
| FreeList.TakenNodeIsExclusive | 3rd/concurrentqueue/concurrentqueue.h:1452-1489 | in every run, a node that a thread has popped but not yet returned is owned by no client, popped by no other thread and being added by none, and its count covers the list's reference and the thread's own, so taking off two leaves the others' references |
| FreeList.RefsAreCounted | 3rd/concurrentqueue/concurrentqueue.h:1438-1517 | the 31-bit reference count is the number of threads that hold the node, plus one exactly if the node is on the list or in transit between a thread and the list, never both; so it fits its word |
| FreeList.NoNodeIsLost | 3rd/concurrentqueue/concurrentqueue.h:1438-1517 | at every moment the nodes reached from the head form a list without cycle, disjoint from the clients' nodes, and a node in neither is held or being added by some thread |
| FreeList.QuiescentListIsComplete | 3rd/concurrentqueue/concurrentqueue.h:1438-1517 | when all operations have returned, every node is owned by a client or on the list, exclusively, and counts are 1 on the list and 0 off it |
| FreeList.LoneTryGetSucceeds | 3rd/concurrentqueue/concurrentqueue.h:1452-1489 | after any run that has come to rest with a released node, an undisturbed try_get obtains a node, and all is at rest again |
| FreeList.TryGetGoesThrough | 3rd/concurrentqueue/concurrentqueue.h:1452-1489 | from any reachable state with a non-empty list, whatever other threads are in the middle of, an undisturbed try_get obtains the head in seven steps, and the list goes on with its successor |
| FreeList.AddGoesThrough | 3rd/concurrentqueue/concurrentqueue.h:1438-1517 | from any reachable state, an undisturbed add puts the node at the head of the list, or, if threads hold it, leaves it to the last of them |
| FreeList.LastHolderLists | 3rd/concurrentqueue/concurrentqueue.h:1482-1485 | the last holder of a released node can go on to put it at the head of the list |
| FreeList.NullMeansEmpty | 3rd/concurrentqueue/concurrentqueue.h:1452-1489 | in every interleaving, try_get comes away with nothing only if the list was empty at a moment at which it read the head during that call |
| FreeList.StepPreserves | 3rd/concurrentqueue/concurrentqueue.h:1438-1517 | every atomic step of add, try_get and add_knowing_refcount_is_zero, from any safe state, leads to a safe state: all nodes located, all references accounted for, the list intact |
| FreeList.RunSafe | 3rd/concurrentqueue/concurrentqueue.h:1438-1517 | every state of every run is safe, for any number of threads and nodes |
| FreeList.StartAddPreserves | 3rd/concurrentqueue/concurrentqueue.h:1438-1450 | handing a node over makes its caller responsible for it if nobody holds it, and otherwise leaves it to the last holder |
| FreeList.AddCasPreserves | 3rd/concurrentqueue/concurrentqueue.h:1505-1509 | a successful exchange of the head puts the node on the list in front of what was there |
| FreeList.AddRetryPreserves | 3rd/concurrentqueue/concurrentqueue.h:1509-1514 | after a failed exchange the node is retried, or left to a later holder, without being listed twice |
| FreeList.AcquirePreserves | 3rd/concurrentqueue/concurrentqueue.h:1457-1468 | a reference is taken only on a node whose count was not zero and is not being added, so its next pointer is frozen |
| FreeList.GetCasPreserves | 3rd/concurrentqueue/concurrentqueue.h:1469-1477 | if the head is still the held node, its next pointer as read before is still the rest of the list (no ABA), and popping it is right |
| FreeList.GetDropPreserves | 3rd/concurrentqueue/concurrentqueue.h:1482-1485 | of all holders of a node that was released in the meantime exactly the last one becomes responsible for listing it |
| Tickets.HeadNeverPassesTail | 3rd/concurrentqueue/concurrentqueue.h:1939-2037 | with one producer and any number of single and bulk consumers, in every interleaving, the number of claimed elements never exceeds the number published |
| Tickets.EachIndexIsClaimedOnce | 3rd/concurrentqueue/concurrentqueue.h:2232-2254 | the index ranges of any two claims in a run are disjoint and ordered as the claims are, and each lies below the tail at its moment |
| Tickets.QuiescentCountersAgree | 3rd/concurrentqueue/concurrentqueue.h:1939-2037 | when no dequeue is under way, optimistic count, overcommit and head agree |
| Tickets.LoneDequeueIsExact | 3rd/concurrentqueue/concurrentqueue.h:2232-2254 | after any run at rest with something in the queue, an undisturbed dequeue of up to max elements claims the oldest ones, as many as there are up to max, and leaves the overcommit alone |
| Tickets.StepKeeps | 3rd/concurrentqueue/concurrentqueue.h:1833-2037 | every step keeps a ledger that splits the tickets into used, counted as failed, and in some thread's hand, in which each used ticket, less the failed ones below it, lies below the tail |
| Tickets.TakeTicketsKeeps | 3rd/concurrentqueue/concurrentqueue.h:1942-1964 | new tickets are nobody else's, and the overcommit read before does not exceed the failed tickets below them |
| Tickets.ReloadTailKeeps | 3rd/concurrentqueue/concurrentqueue.h:1976-1977 | reloading the tail decides which tickets are usable, and those that are not are failures that later readers may count on |
| Tickets.AddOvercommitKeeps | 3rd/concurrentqueue/concurrentqueue.h:2030-2033 | counting failed tickets in the overcommit keeps the ledger, each ticket being counted once |
| Tickets.ClaimKeeps | 3rd/concurrentqueue/concurrentqueue.h:1978-1988 | moving the head by the usable tickets keeps the ledger |
| Tickets.FewTickets | 3rd/concurrentqueue/concurrentqueue.h:1964-1988 | the counting argument in the code's comment: if each used ticket, less the failed ones below it, is below a bound, there are at most that many used tickets |
| Tickets.LoneFailureMeansEmpty | 3rd/concurrentqueue/concurrentqueue.h:1939-2037 | a queue with a single consumer, as a mailbox is: its dequeue comes away with nothing only if the queue was empty when it loaded the tail |
| Tickets.ClaimIsExact | 3rd/concurrentqueue/concurrentqueue.h:1939-2037 | in every interleaving, a claim is as large as it can be by the five values that the dequeue has read, at five moments: all that was wanted, or as many of its tickets as were published when it looked again |
| Tickets.FailureIsExact | 3rd/concurrentqueue/concurrentqueue.h:1939-2037 | a dequeue comes away with nothing only if by these values there was nothing, before it took tickets or for the tickets it took |
| BlockRing.LateConsumerFindsItsElement | 3rd/concurrentqueue/concurrentqueue.h:1991-2028 | a consumer, single or bulk, that has claimed indices from `first` on and reads the index array, its front, a base, a block pointer and the element at five moments of any run comes to its own element for each index, however the producer reuses, inserts and reindexes in between |
| BlockRing.StepKeeps | 3rd/concurrentqueue/concurrentqueue.h:1833-2037 | every step of the producer, down to the single stores into the index, and every step of a consumer keeps the ring, its index and its cells in order, and leaves each consumer under way the entries it relies on |
| BlockRing.RunKeeps | 3rd/concurrentqueue/concurrentqueue.h:1833-2037 | the same between any two moments of a run |
| BlockRing.ReuseStep | 3rd/concurrentqueue/concurrentqueue.h:1838-1852 | making the next, empty block of the ring the tail block keeps all pending elements findable, while the index still names the blocks before it |
| BlockRing.InsertStep | 3rd/concurrentqueue/concurrentqueue.h:1880-1897 | linking in a requisitioned block after the tail block does so, too |
| BlockRing.WriteStep | 3rd/concurrentqueue/concurrentqueue.h:1919-1922 | storing a base or a block into the entry that comes next disturbs no consumer, also when the index is full and the entry was the oldest one |
| BlockRing.PublishStep | 3rd/concurrentqueue/concurrentqueue.h:1923-1924 | publishing the front makes the new entry one of the ring's, with contiguous bases, and there is room |
| BlockRing.GrowStep | 3rd/concurrentqueue/concurrentqueue.h:2341-2378 | a larger index array that starts with the live entries does so, too, while consumers go on with the old arrays |
| BlockRing.OldestIsFinished | 3rd/concurrentqueue/concurrentqueue.h:1842-1846 | the block about to be reused contains no element that is queued or claimed |
| BlockRing.CurrentFrontReaches | 3rd/concurrentqueue/concurrentqueue.h:1991-2005 | from the front published now every pending index leads to its block |
| BlockRing.CopyEntries | 3rd/concurrentqueue/concurrentqueue.h:2355-2363 | the copying loop moves the last n entries, oldest first, to the start of an array of twice the size |
| BlockRing.ExplicitProducer.Enqueue | 3rd/concurrentqueue/concurrentqueue.h:1833-1937 | the element is put at the end of the sequence, and nothing else changes; it fails exactly if a block ends, the next one is not empty, and no block, or no larger index when the index is full, can be had |
| BlockRing.ExplicitProducer.NextBlock | 3rd/concurrentqueue/concurrentqueue.h:1838-1924 | at the end of the tail block: the next block of the ring if it is empty, else one more; succeeds exactly if one of the two is possible |
| BlockRing.ExplicitProducer.Grow | 3rd/concurrentqueue/concurrentqueue.h:2341-2378 | the index doubles and starts with the live entries; pending elements stay findable |
| BlockRing.ExplicitProducer.Resolve | 3rd/concurrentqueue/concurrentqueue.h:1991-2005 | the signed distance between the claimed index's base and the front's leads to the block that holds the element enqueued under this index |
| BlockRing.ExplicitProducer.Dequeue | 3rd/concurrentqueue/concurrentqueue.h:1939-2037 | an undisturbed dequeue returns the oldest element, and None exactly if there is none |
| BlockRing.ExplicitProducer.AllSet | 3rd/concurrentqueue/concurrentqueue.h:1548-1572 | is_empty is true exactly if every flag of the block is set |
| BlockRing.LeadsKeeps | 3rd/concurrentqueue/concurrentqueue.h:1833-2037 | the same for the explicit producer's methods |
| BlockIndex.LateConsumerFindsItsElement | 3rd/concurrentqueue/concurrentqueue.h:2535-2604 | the same for the implicit producer, whose entries are cleared and reused and whose tail may be taken back: index array, tail, base, block pointer and element are read at five moments of any run and lead to the claimed element; and if its block is still in use at a sixth, the entry then cleared is still that block's |
| BlockIndex.BlocksInUse | 3rd/concurrentqueue/concurrentqueue.h:2471-2604 | between operations a block is in use exactly if one of its indices is not yet moved out: none is leaked and none is given back early |
| BlockIndex.ReleasedIsEmpty | 3rd/concurrentqueue/concurrentqueue.h:2584-2593 | the block a consumer gives back was filled to its end and holds no element that is queued or claimed |
| BlockIndex.StepKeeps | 3rd/concurrentqueue/concurrentqueue.h:2471-2604 | every single store of the producer to its index, every claim, every move-out and every release keeps the index in order and leaves each consumer under way its entries |
| BlockIndex.RunKeeps | 3rd/concurrentqueue/concurrentqueue.h:2471-2604 | the same between any two moments of a run |
| BlockIndex.KeyStoredStep | 3rd/concurrentqueue/concurrentqueue.h:2892-2897 | giving the next entry its base is safe although consumers may be reading the entry's former base |
| BlockIndex.TailStoredStep | 3rd/concurrentqueue/concurrentqueue.h:2897-2899 | publishing the new tail is safe although the entry has no block yet |
| BlockIndex.ValueStoredStep | 3rd/concurrentqueue/concurrentqueue.h:2502-2520 | a requisitioned block in the newest entry is its block alone, with no element of it out |
| BlockIndex.RewoundStep | 3rd/concurrentqueue/concurrentqueue.h:2918-2922 | taking the tail back is safe although consumers may hold the newer tail |
| BlockIndex.NullStoredStep | 3rd/concurrentqueue/concurrentqueue.h:2494-2498 | clearing the entry that was opened in vain keeps the index in order |
| BlockIndex.GrownStep | 3rd/concurrentqueue/concurrentqueue.h:2949-2991 | an array of twice the size with the old pointers, oldest first, keeps every entry's number, and makes the next entry free |
| BlockIndex.ConsumedStep | 3rd/concurrentqueue/concurrentqueue.h:2581-2584 | counting one more element out keeps each block's counter equal to its elements out, 32 exactly when someone is about to release it |
| BlockIndex.ReleasedStep | 3rd/concurrentqueue/concurrentqueue.h:2584-2593 | clearing the entry and giving the block back is safe for the consumers of all other blocks |
| BlockIndex.DoneBound | 3rd/concurrentqueue/concurrentqueue.h:1575-1590 | a block's counter never passes 32, and 32 means that all of its elements are out |
| BlockIndex.ImplicitProducer.Enqueue | 3rd/concurrentqueue/concurrentqueue.h:2471-2533 | the element is put at the end of the sequence; it fails exactly if a block ends and there is no block, or neither a free entry nor a larger index; a failure leaves the sequence, and the index, as they were for consumers |
| BlockIndex.ImplicitProducer.InsertBlockIndexEntry | 3rd/concurrentqueue/concurrentqueue.h:2885-2916 | succeeds exactly if the next entry is unused or cleared or the index may grow, and then that entry is the newest one; otherwise nothing changes |
| BlockIndex.ImplicitProducer.NewBlockIndex | 3rd/concurrentqueue/concurrentqueue.h:2949-2991 | after growth the next entry is free and nothing pending is lost |
| BlockIndex.ImplicitProducer.RotatedIndex | 3rd/concurrentqueue/concurrentqueue.h:2965-2979 | the copying loop puts the old pointers, from the one after the tail round to the tail, before the new ones |
| BlockIndex.ImplicitProducer.Rewind | 3rd/concurrentqueue/concurrentqueue.h:2494-2498 | after a failed requisition the producer is at the end of its block again and can try again |
| BlockIndex.ImplicitProducer.EntryForIndex | 3rd/concurrentqueue/concurrentqueue.h:2924-2947 | the offset from the tail's base leads to the entry that has the claimed index's base and block |
| BlockIndex.ImplicitProducer.Dequeue | 3rd/concurrentqueue/concurrentqueue.h:2535-2604 | an undisturbed dequeue returns the oldest element, None exactly if there is none, and gives back at most the one block it emptied |
| BlockIndex.LeadsKeeps | 3rd/concurrentqueue/concurrentqueue.h:2471-2604 | what a method of the producer object does is a run of single stores and steps, so it leaves all consumers that are under way their elements |
| Queue.RunSafe | 3rd/concurrentqueue/concurrentqueue.h:2471-2604 | the ticket counters and the blocks together, any number of single and bulk consumers: in every state of every run the index is in order, both have the same head and tail, and what was claimed is out or in the hands of one thread; nothing but the tickets guards the head |
| Queue.RunIsFirstInFirstOut | 3rd/concurrentqueue/concurrentqueue.h:2471-2604 | every step of a run is one of a queue in one piece: nothing, an element coming in at the end, or the first elements going to one thread |
| Queue.ReceivedIsEnqueued | 3rd/concurrentqueue/concurrentqueue.h:2546-2596 | what a consumer moves out for an index is what was enqueued under it |
| Queue.ReceivedOnce | 3rd/concurrentqueue/concurrentqueue.h:2546-2596 | no element is received twice, by one thread or by two |
| Queue.AllAreReceived | 3rd/concurrentqueue/concurrentqueue.h:2535-2604 | when all dequeues have returned, exactly the claimed elements have been received |
| Queue.ClaimantFindsItsElement | 3rd/concurrentqueue/concurrentqueue.h:2546-2596 | in these runs, too, the reads of array, tail, base, block and element at five moments lead a claimant to its own element |
| QueueCalls.EnqueueGoesThrough | 3rd/concurrentqueue/concurrentqueue.h:2471-2533 | from any reachable state, in the middle of any call, the producer can go on to put an element in behind all others, its index growing if it has to |
| QueueCalls.DequeueGoesThrough | 3rd/concurrentqueue/concurrentqueue.h:2535-2604 | when all dequeues have returned and the queue is not empty, an undisturbed dequeue can move out exactly the oldest elements, as many as it wants or there are, and return |
| QueueCalls.BlockIsGivenBack | 3rd/concurrentqueue/concurrentqueue.h:2584-2593 | whoever has counted the last element of a block can give it back, from any state |
| BlockingQueue.RunConserves | 3rd/concurrentqueue/lightweightsemaphore.h:262-402 | in every run, with timeouts anywhere and any initial count: initial count + elements = count + waiters + elements not yet signalled + elements owed to consumers, and waiters = deficit of the count + kernel tokens + releases under way |
| BlockingQueue.EveryGrantHasAnElement | 3rd/concurrentqueue/blockingconcurrentqueue.h:294-303 | grants never exceed the initial count and what was signalled; in a blocking queue, whose initial count is 0, a consumer in its retry loop for k elements has k elements reserved for it |
| BlockingQueue.SleepersHaveNothingToTake | 3rd/concurrentqueue/lightweightsemaphore.h:262-332 | no wake-up is lost: if threads wait and no wake-up is on its way, every element and every initial permit is owed to others or about to be signalled |
| BlockingQueue.LateWakeupExists | 3rd/concurrentqueue/lightweightsemaphore.h:283-295 | a waiter that timed out and sees a non-negative count has a kernel release to come, so its last wait ends |
| BlockingQueue.QuiescentPermitsMatchElements | 3rd/concurrentqueue/blockingconcurrentqueue.h:123-130 | when all calls have returned, the count is the initial count plus the number of elements, and no kernel token is left over |
| BlockingQueue.StepKeeps | 3rd/concurrentqueue/lightweightsemaphore.h:262-402 | every atomic step keeps both accounts |
| BlockingCalls.NoPermitMeansNothingUnclaimed | 3rd/concurrentqueue/lightweightsemaphore.h:341-374 | in every run, a try finds no permit only at a moment at which every element and initial permit is owed, about to be signalled or meant for a waiter |
| BlockingCalls.TimeoutMeansNothingUnclaimed | 3rd/concurrentqueue/lightweightsemaphore.h:283-295 | a timed wait gives up only at a moment at which there are more waiters than elements |
| BlockingCalls.TryNeverWaits | 3rd/concurrentqueue/lightweightsemaphore.h:341-374 | a try neither spins nor sleeps |
| BlockingCalls.WaitIsNotInVain | 3rd/concurrentqueue/lightweightsemaphore.h:262-402 | a dequeue without a timeout, and any that has obtained a permit, goes on until it has at least one element |
| BlockingCalls.UndisturbedTryIsExact | 3rd/concurrentqueue/lightweightsemaphore.h:363-374 | from any reachable state, an undisturbed call obtains exactly the smaller of what it wants and what is unclaimed, whatever the spurious failures of its exchange |
| BlockingCalls.DequeueGoesThrough | 3rd/concurrentqueue/blockingconcurrentqueue.h:294-303 | and can return with exactly as many elements |
| BlockingCalls.EnqueueGoesThrough | 3rd/concurrentqueue/lightweightsemaphore.h:393-402 | from any reachable state, an enqueue of n elements can raise the count by n and release as many waiters as the count was short of, up to n |
| BlockingCalls.WakeUpIsTaken | 3rd/concurrentqueue/lightweightsemaphore.h:298-332 | a waiter for whom there is a release, in its wait or after its timeout, can go on with a permit, and takes up to max - 1 more of those that are free |
| BlockingCalls.SpinnerTakes | 3rd/concurrentqueue/lightweightsemaphore.h:298-332 | a spinning waiter that finds permits takes as many as it wants or are free |
| BlockingCalls.SleeperIsServed | 3rd/concurrentqueue/blockingconcurrentqueue.h:359-367 | with no wake-up under way, the next element can wake a sleeping consumer, which returns with it |
| BlockingCalls.TimeoutIsTaken | 3rd/concurrentqueue/lightweightsemaphore.h:283-295 | while the count is negative a timed waiter can give up, taking itself out of the count |
| Actors.NothingIsLostOrReordered | core/actor/Actor.cpp:48-86 | in every behaviour, direct calls included: what an actor accepted from a sender is what it has run, is running and has waiting, in the order of acceptance |
| Actors.RegisteredTasksAreRun | core/actor/ActorSystem.h:53-78 | when stopAll has returned, whatever was accepted through the registry by an actor it stopped has been run, each once and in order, whatever direct calls did |
| Actors.AllDoneIffNoneTooLate | core/actor/Actor.h:48-74 | an actor whose thread has left has run everything it accepted from a sender if and only if no direct call of that sender entered after the thread's last look at the sender's queue |
| Actors.StopAllLosesNothing | core/actor/ActorSystem.cpp:29-44 | if all direct calls of a sender on an actor entered before stopAll was called, then everything accepted from the sender has been run when it returns |
| Actors.DirectExecuteCanLoseATask | core/actor/Actor.h:48-57 | a run in which stopAll returns and a directly executed call that was accepted is never run |
| Actors.LateCallExists | core/actor/Actor.cpp:76-82 | if the actor's thread has passed by a queue that is not empty, a direct call came too late |
| Actors.LateTaskStays | core/actor/Actor.cpp:76-82 | what came too late is still waiting at the later moment |
| Actors.LookedUpActorIsAlive | core/actor/ActorSystem.h:53-78 | an actor found in the registry under the lock is running, not deleted, and its thread has not left |
| Actors.ExitedActorsAreFinal | core/actor/Actor.cpp:39-86 | an actor whose thread has left runs nothing more and accepts nothing more through the registry |
| Actors.StepKeeps | core/actor/ActorSystem.cpp:29-44 | every step of spawn, execute, stopAll and an actor's thread keeps lock, registry, flags and mailboxes consistent; in particular an actor is deleted only after its thread has left |
| ActorCalls.RegistryCallIsAccepted | core/actor/ActorSystem.h:53-78 | a call of ActorSystem::execute answers yes exactly if the actor was registered when it was looked up, and then its mailbox, and no other, has accepted the task once; otherwise none has |
| ActorCalls.DirectCallIsAccepted | core/actor/Actor.h:48-74 | a call of Actor::execute answers yes exactly if the flag was set when it was tested, and then the mailbox has accepted the task once |
| ActorCalls.SpawnRegisters | core/actor/ActorSystem.h:34-47 | when spawn releases the lock, an actor that was not there when it was called is in the registry and running |
| ActorCalls.RunningIffReachable | core/actor/ActorSystem.cpp:28-46 | an actor's flag is set exactly as long as it is in the registry, or in the hands of a stopAll that has not come to it |
| ActorCalls.StopAllStopsAll | core/actor/ActorSystem.cpp:28-46 | when stopAll returns, each actor that was registered when it was called is gone from the registry, swept since then by this call, which has stopped and deleted it, or by another |
| ActorCalls.EmptyHanded | core/actor/Actor.cpp:54-82 | an actor's thread comes away from its mailbox without a task only if it has found each sender's FIFO empty in that very call |
| ActorProgress.TaskIsServed | core/actor/Actor.cpp:54-63 | a task at the front of a sender's FIFO can be run next by a running actor |
| ActorProgress.ActorLeaves | core/actor/Actor.cpp:54-86 | from any reachable state, an actor whose flag is cleared can finish its mailbox and leave by its own steps |
| ActorProgress.ExecuteGoesThrough | core/actor/ActorSystem.h:53-78 | from any reachable state with the lock free, execute can put its task into a registered actor's mailbox |
| ActorProgress.StopAllReturns | core/actor/ActorSystem.cpp:28-46 | from any reachable state with the lock free, stopAll can return, having swept the whole registry, by its own and the actors' steps |
| ActorProgress.TaskIsAcceptedAndRun | core/actor/ActorSystem.h:53-78 | a run in which a task is accepted through the registry and done when stopAll returns |
| Table.HashTable.NewKey | engine-lua/pb.h:869-898 | adds the key with an empty payload to the finite map the table stands for and loses nothing, through placing, chaining, displacing and resizing; fails only at the size limit; terminates, because copying into the larger table never needs another resize |
| Table.HashTable.Set | engine-lua/pb.h:936-941 | returns the key's entry, with its payload if it was there; the map gains at most the key |
| Table.HashTable.Get | engine-lua/pb.h:923-934 | the walk from the main slot finds the key's entry exactly if the key is in the map, and terminates |
| Table.HashTable.Resize | engine-lua/pb.h:900-921 | the map of non-zero keys is unchanged; succeeds unless the limit is passed, and then changes nothing; the entry of key 0 becomes what the empty slots made of it |
| Table.HashTable.CopyAll | engine-lua/pb.h:912-917 | the copying loop carries over every old slot, live or empty |
| Table.HashTable.Insert | engine-lua/pb.h:869-898 | adding a non-zero key without a resize: succeeds whenever the table has room, reports failure only after the scan found no free slot |
| Table.HashTable.Collide | engine-lua/pb.h:875-892 | the occupant is moved if it is away from its main slot, else the new key is chained behind it |
| Table.HashTable.Predecessor | engine-lua/pb.h:882-883 | the walk from the displaced key's main slot ends at the slot whose link leads to it |
| Table.HashTable.FindFree | engine-lua/pb.h:876-879 | the scan stops at the highest free slot below lastfree, which is in no chain, or exhausts the table |
| Table.HashTable.Clear | engine-lua/pb.h:1283-1292 | clearing an entry in place removes just its key and keeps its chain walkable |
| Table.HashTable.InsertZero | engine-lua/pb.h:872-874 | key 0 is stored in slot 0 with an empty payload and no other key is touched |
| Table.HashTable.Next | engine-lua/pb.h:943-959 | returns the first entry after the cursor, key 0 before all others |
| Table.HashTable.Visit | engine-lua/pb.h:943-959 | iteration visits each entry, key 0 included if set, exactly once, in slot order |
| Table.PlacedOk | engine-lua/pb.h:869-898 | storing a key in its empty main slot keeps all chains and adds the key |
| Table.ChainedOk | engine-lua/pb.h:887-892 | linking a key in behind its main slot keeps all chains acyclic, of in-degree one and reachable, and adds the key |
| Table.DisplacedOk | engine-lua/pb.h:882-886 | moving an occupant of another chain to the free slot, relinking its predecessor and its successor, keeps both chains and all payloads and adds the key |
| Table.ClearedOk | engine-lua/pb.h:1283-1292 | a slot cleared in place keeps its link, and every other key stays reachable |
| Table.WalkStep | engine-lua/pb.h:923-934 | a walk that has not found its key goes on below the key's slot, or the key is not in the table |
| Table.StillRoomy | engine-lua/pb.h:912-917 | while the old table is copied, the new one always has room for one more key without a resize |
| Table.ResizeMakesRoom | engine-lua/pb.h:900-921 | a larger table with the same keys has room for one more |
| Table.ZeroSurvivesResize | engine-lua/pb.h:900-921 | key 0 keeps its payload through a resize if and only if the payload is NULL or every other slot is in use |
| Table.ZeroCanBeLost | engine-lua/pb.h:869-921 | a run from an empty table, of eight insertions, one of them of key 0 with a payload, and a clear in place, after which the next insertion has to resize and key 0 loses its payload |
| Names.NameTable.PbName | engine-lua/pb.h:1091-1111 | whatever the cache holds, however stale, the result is that of a lookup without it; afterwards the cache has the hash of the string at this address, a new string having moved the last one to the second place |
| Names.NameTable.GetName | engine-lua/pb.h:1053-1064 | finds the one entry of a text shorter than 2^16 bytes, None exactly if there is none; a longer text is never found |
| Names.NameTable.NewName | engine-lua/pb.h:1074-1089 | returns the text's entry with one more user, making one only if a lookup finds none; fails only if the bucket array cannot grow |
| Names.NameTable.NewEntry | engine-lua/pb.h:1019-1036 | one more entry, in the bucket of its hash, with its length in 16 bits; no other entry changes |
| Names.NameTable.DelName | engine-lua/pb.h:1066-1072 | drops one user, and the entry with its last one |
| Names.NameTable.Unlink | engine-lua/pb.h:1038-1051 | the scan of the bucket takes out this entry and no other |
| Names.NameTable.Resize | engine-lua/pb.h:994-1017 | every entry is in its bucket of the larger array, none is lost or duplicated |
| Names.NameTable.Rehash | engine-lua/pb.h:1003-1012 | the moving loop puts each entry into the bucket of its hash |
| Names.NameTable.UseName | engine-lua/pb.h:967-968 | one more user, and nothing else |
| Names.NameIsUnique | engine-lua/pb.h:1053-1064 | two lookups of one text cannot differ |
| Names.FoundIffShort | engine-lua/pb.h:1053-1064 | a text that has an entry is found if and only if it has less than 2^16 bytes |
| Names.InternTwice | engine-lua/pb.h:1019-1089 | a text of 2^16 bytes interned twice has two entries |
| Fields.MessageType.NewField | engine-lua/pb.h:1258-1281 | the name and the number lead to the new field; fields that no index leads to any more are freed, once, and counted; if name and number already led to one field, it is returned unchanged |
| Fields.MessageType.DelField | engine-lua/pb.h:1283-1292 | the field leaves both indexes where they lead to it, is freed once, and no other entry changes |
| Fields.MessageType.DelType | engine-lua/pb.h:1232-1256 | all fields of the type are freed, each once, and none of another type |
| Fields.NewFieldKeeps | engine-lua/pb.h:1258-1281 | afterwards again each index entry leads to a live field with its key and each live field is led to |
| Fields.DelFieldKeeps | engine-lua/pb.h:1283-1292 | the same after deleting a field, and exactly its own entries are gone |
| Fields.FreedIffOrphaned | engine-lua/pb.h:1275-1280 | a field stays live if and only if its name or its number still leads to it |
| Fields.Pool.Alloc | engine-lua/pb.h:829-846 | never hands out an object that is in use, and takes a new page only if no object is free |
| Fields.Pool.Free | engine-lua/pb.h:848-849 | takes back an object that is in use; what is free and what is in use stay disjoint and complete |
| Varint.ReadVarint32 | engine-lua/pb.h:476-486 | on every slice, long or short, the reader with its unrolled and its slow path returns the value modulo 2^32, the size and the failure that the simple byte-by-byte definition gives, advances by exactly that size and reads nothing beyond the slice |
| Varint.ReadVarint64 | engine-lua/pb.h:488-494 | the same modulo 2^64 |
| Varint.ReadUnrolled32 | engine-lua/pb.h:428-447 | the unrolled 32-bit reader agrees with the simple definition on every slice that has ten bytes or ends a varint |
| Varint.ReadUnrolled64 | engine-lua/pb.h:449-467 | the unrolled 64-bit reader, with its three registers, agrees with the simple definition on the same slices |
| Varint.ReadSlow | engine-lua/pb.h:412-426 | the loop agrees with the simple definition on every slice |
| Varint.Write32 | engine-lua/pb.h:691-701 | writes the canonical encoding of a 32-bit number |
| Varint.Write64 | engine-lua/pb.h:703-718 | writes the canonical encoding of a 64-bit number, the tenth byte having one bit |
| Varint.ReadWhatWasWritten | engine-lua/pb.h:476-494 | the readers' specification on a written number, followed by anything, is that number and its length |
| Varint.DecodeEncode | engine-lua/pb.h:412-426 | decoding inverts the canonical encoding of every number that fits the limit, whatever follows |
| Varint.EncodeIsPrefixFree | engine-lua/pb.h:703-718 | no encoding is the start of another |
| Varint.FixedRoundTrip | engine-lua/pb.h:784-808 | little-endian numbers of k bytes come back |
| Varint.ReadFixed | engine-lua/pb.h:496-522 | reads the k little-endian bytes, or fails without moving if they are not there |
| Words.Zigzag32 | engine-lua/pb.h:376-380 | the encoding numbers 0, -1, 1, -2, ... in this order |
| Words.Zigzag64 | engine-lua/pb.h:382-386 | the same in 64 bits |
| Words.Sint32RoundTrip | engine-lua/pb.h:376-380 | zigzag encoding and decoding are inverse bijections of 32-bit numbers |
| Words.Sint64RoundTrip | engine-lua/pb.h:382-386 | and of 64-bit numbers |
| Words.ExpandSigIsSignExtension | engine-lua/pb.h:388-389 | the xor-and-subtract trick is sign extension from 32 to 64 bits |
| Wire.SkipIffWellFormed | engine-lua/pb.h:548-608 | skipping succeeds on n bytes if and only if they are one well-formed value for the tag, with groups nested to any depth |
| Wire.SkipIsSound | engine-lua/pb.h:568-582 | what is skipped is the flat form of some well-formed value |
| Wire.SkipIsComplete | engine-lua/pb.h:568-582 | every well-formed value, followed by anything, is skipped exactly |
| Wire.GroupIsSound | engine-lua/pb.h:548-566 | what a group reader consumes is a list of well-formed fields and an end tag with its own number |
| Wire.SkipValue | engine-lua/pb.h:568-582 | the cursor code computes this skip: it moves by exactly one value, or not at all, and terminates |
| Wire.ReadGroup | engine-lua/pb.h:548-566 | the loop computes this group skip and returns the bytes before the end tag |
| Wire.SkipVarint | engine-lua/pb.h:584-590 | moves to after the first byte without its top bit, or not at all |
| Wire.SkipBytes | engine-lua/pb.h:592-602 | passes a length and as many bytes, or restores the position |
| Wire.SkipSlice | engine-lua/pb.h:604-608 | passes exactly len bytes, or none if there are fewer |
| Wire.SkippedButNotRead | engine-lua/pb.h:584-590 | a varint of any length is skipped; it is read if and only if it has at most ten bytes |
| Wire.ReadBytes | engine-lua/pb.h:534-546 | returns the payload of a length-delimited record, or restores the position |
| Wire.DelimitedRoundTrip | engine-lua/pb.h:534-546 | reading takes a record apart into the payload it was made of |
| Buffer.ByteBuffer.PrepBuffSize | engine-lua/pb.h:720-736 | makes room without changing the contents, reallocating exactly if it has to and to less than one and a half times what is needed |
| Buffer.ByteBuffer.AddLength | engine-lua/pb.h:747-759 | turns prefix and suffix into prefix, length of the suffix and suffix, for suffixes of any size; 0 and no change exactly if the prefix is longer than the buffer |
| Buffer.ByteBuffer.AddSlice | engine-lua/pb.h:738-745 | appends the bytes, through growth from inline to heap |
| Buffer.ByteBuffer.AddBytes | engine-lua/pb.h:761-766 | appends the length as a 32-bit word and the bytes, which is a length-delimited record below 2^32 bytes |
| Buffer.ByteBuffer.AddVarint32 | engine-lua/pb.h:768-774 | appends the canonical encoding |
| Buffer.ByteBuffer.AddVarint64 | engine-lua/pb.h:776-782 | appends the canonical encoding |
| Buffer.ByteBuffer.AddFixed | engine-lua/pb.h:784-808 | appends k bytes, least significant first |
| Pack.NestedFormatPacks | engine-lua/pb.c:683-720 | a balanced format of at most 100 levels, of formatters that append what they take (all but `#` and the floating-point ones), appends exactly the nested length-delimited encoding, uses up its own arguments and stops at its own end |
| Pack.NestedIsReadBack | engine-lua/pb.c:683-720 | reading the record of a nested list gives what its items were packed to |
| Pack.TypedIsReadBack | engine-lua/pb.c:674-720 | what a typed formatter packed, unpacking with the same type returns |
| Pack.PackFmtTo | engine-lua/pb.c:683-720 | the recursive loop over format and arguments computes this packing on every format, balanced or not, and errs exactly when it does |
| Pack.PackOneTo | engine-lua/pb.c:683-720 | one formatter appends its argument as its type says, and fails exactly if the argument is of the wrong kind or the letter is unknown |
| PackForms.IntegersArePacked | engine-lua/pb.c:674-720 | the letters that take an integer, and the number of which width and form each of them packs, for all integers |
| PackForms.OthersArePacked | engine-lua/pb.c:683-720 | booleans as one byte, slices alone or with their length |
| Message.DecodeEncoded | engine-lua/pb.c:1671-1784 | decoding an encoded message gives, for every field of the schema that was set, its value, and the default for every other, whatever the order of the fields and however deep the nesting |
| Message.OrderDoesNotMatter | engine-lua/pb.c:1579-1598 | the meaning of a message does not depend on the order in which the table is traversed |
| Message.MeaningAt | engine-lua/pb.c:1764-1784 | each name ends up with what its own entry put there |
| Message.MessageRoundTrip | engine-lua/pb.c:1579-1784 | decoding the encoded entries puts their meanings into the table, one after the other |
| Message.ValueRoundTrip | engine-lua/pb.c:1500-1525 | a value of any kind, nested messages included, is read back with exactly its own bytes, whatever follows |
| Message.ScalarRoundTrip | engine-lua/pb.c:370-501 | each scalar kind reads back what it wrote, for all values in range: sign extension, zigzag, fixed and unsigned forms |
| Message.SingleRoundTrip | engine-lua/pb.c:1527-1534 | a single field comes back, also if it was elided |
| Message.ElidedIsThere | engine-lua/pb.c:1309-1362 | what proto3 elides is the default that decoding starts from |
| Message.ItemsRoundTrip | engine-lua/pb.c:1556-1577 | repeated items come back in order |
| Message.PackedRoundTrip | engine-lua/pb.c:1745-1762 | and so do packed ones |
| Message.PairsRoundTrip | engine-lua/pb.c:1536-1554 | map entries come back as a map |
| Message.PairRoundTrip | engine-lua/pb.c:1718-1743 | a map entry comes back with its key and its value, either of which may have been elided |
| MessageCode.AddMessage | engine-lua/pb.c:1579-1598 | the encoder appends exactly this encoding to the buffer |
| MessageCode.AddTagField | engine-lua/pb.c:1527-1534 | a tag and a value, or nothing: elision restores the buffer to its length before the tag |
| MessageCode.AddField | engine-lua/pb.c:1500-1525 | appends the field's bytes, nested messages length-prefixed after the fact, and says how many may be taken back |
| MessageCode.AddPairs | engine-lua/pb.c:1536-1554 | appends one record per map pair |
| MessageCode.AddPacked | engine-lua/pb.c:1556-1577 | appends one record with all values |
| MessageCode.AddItems | engine-lua/pb.c:1556-1577 | appends each value with its own tag |
| MessageCode.AddScalar | engine-lua/pb.c:370-448 | appends the scalar as its kind says, and its size if it is zero |
| MessageCode.ReadMessage | engine-lua/pb.c:1764-1784 | the decoder's loop computes this decoding on every slice, malformed ones included, and terminates |
| MessageCode.UnknownField | engine-lua/pb.c:1768-1771 | an unknown field is skipped, and only its tag if that fails |
| MessageCode.ReadValueAt | engine-lua/pb.c:1671-1700 | reads one value of a kind, or fails, as the definition says |
| MessageCode.ReadFieldAt | engine-lua/pb.c:1702-1716 | and fails if the tag's wire type is not the kind's |
| MessageCode.ReadMapAt | engine-lua/pb.c:1718-1743 | one entry is put into the map, unless a half is missing and has no default |
| MessageCode.ReadRepeatedAt | engine-lua/pb.c:1745-1762 | one item, or all items of a packed record, are put at the end of the array |
| MessageCode.ReadScalarAt | engine-lua/pb.c:450-501 | reads one scalar of a kind, or fails |
| Strict.MessageIsStrict | engine-lua/pb.c:1764-1784 | the decoder with errors for failed skips and broken tags, in messages and in map entries, equals the decoder on the messages of the wire grammar, nested to any depth, and refuses all other bytes |
| Strict.AcceptedIffFlawed | engine-lua/pb.c:1764-1784 | an accepted message is refused by the strict decoder if and only if the loop comes to bytes that are no tag, to an unknown field without a well-formed value, or to a known field with such a flaw inside |
| Strict.FailedSkipIsIgnored | engine-lua/pb.c:1768-1771 | four bytes with an unknown field that cannot be skipped, accepted by the decoder and refused by the strict one |
| Strict.BrokenTagIsIgnored | engine-lua/pb.c:1768-1781 | one byte that is no tag, taken for the end and refused by the strict decoder |
| Encoded.EncodedIsMessage | engine-lua/pb.c:1579-1598 | whatever the encoder writes is a message of the wire grammar |
| Encoded.StrictReadsEncoded | engine-lua/pb.c:1579-1784 | the strict decoder returns the same table for it as the decoder |
| Strays.HarmlessIffPassedOver | engine-lua/pb.c:1728-1735 | the unskipped value of an unknown field changes no map entry, whatever follows and was seen before, if and only if its bytes are whole tags of neither the key nor the value |
| Strays.FieldIsHarmless | engine-lua/pb.c:1728-1735 | the same for the field with its tag |
| Strays.VarintIsHarmless | engine-lua/pb.c:1728-1735 | a varint value is harmless if and only if, taken for a tag, it is numbered neither 1 nor 2 |
| Strays.RecordIsHarmless | engine-lua/pb.c:1728-1735 | a record is harmless if and only if its length, taken for a tag, and its payload are; one of eight to 23 bytes never is |
| Strays.EntryIsReadAsMeant | engine-lua/pb.c:1718-1743 | an entry in which every unknown value is passed over is read as if they were skipped |
| Strays.WrongKey | engine-lua/pb.c:1718-1743 | a well-formed entry with an unknown field that enters the map of a message under another key |
| WireForms.VarintKindsAreWritten | engine-lua/pb.c:370-448 | a value of a varint kind is the varint of the number that the format prescribes: itself modulo 2^64, zigzag for the sint kinds, 0 or 1 for booleans |
| WireForms.Int32IsInt64 | engine-lua/pb.c:400-404 | an int32 is read back as int64 unchanged, and -1 takes ten bytes |
| WireForms.VarintKindsAreRead | engine-lua/pb.c:450-469 | any varint of at most ten bytes, canonical or not, is read as the value of the kind with its low bits, booleans as its being non-zero |
| WireForms.FixedKindsAreWritten | engine-lua/pb.c:390-424 | fixed kinds take four or eight bytes, least significant first, in two's complement |
| WireForms.FixedKindsAreRead | engine-lua/pb.c:470-491 | and any such bytes are read as that number, with or without its sign |
| WireForms.TextIsWritten | engine-lua/pb.c:435-440 | text is its length in bytes and then the bytes |
| WireForms.KnownMessages | engine-lua/pb.c:1579-1598 | the examples of the Protocol Buffers encoding guide, byte by byte: a number, a string, a nested message, a packed list |
| WireForms.KnownSkips | engine-lua/pb.h:568-582 | what is skipped for each of the eight wire types |
| Presence.AbsentField | engine-lua/pb.c:1639-1659 | a field that was not set comes back empty by its kind and shape if the type is proto3, the field is in no oneof and no single message, and otherwise not at all |
| Presence.AbsentInNested | engine-lua/pb.c:1687-1694 | the same in a message that is a field's value |
| Presence.LeftOutIffBlank | engine-lua/pb.c:1579-1598 | an entry leaves no bytes exactly if it is no field, an empty list or map, or a zero, false or empty scalar, no enum, of a proto3 type outside of oneofs |
| Presence.HalvesLeftOut | engine-lua/pb.c:1536-1554 | of a map entry exactly the zero, false and empty halves, enums excepted, are left out |
| Presence.EntryGoesIn | engine-lua/pb.c:1718-1743 | whatever its record holds, the pair of what was seen of an entry goes into the map, a missing scalar being empty; only an entry without its message is dropped |
| Presence.LastHalfCounts | engine-lua/pb.c:1728-1735 | of a half that is there twice the last one counts |
| Variants.PackedIsTaken | engine-lua/pb.c:1745-1762 | a list of scalars may come packed, whether its field is declared packed or not |
| Variants.UnpackedIsTaken | engine-lua/pb.c:1745-1762 | and item by item, whether it is or not |
| Variants.LastValueCounts | engine-lua/pb.c:1776-1780 | of a single field that is there twice the last value counts |
| Variants.UnknownIsPassedOver | engine-lua/pb.c:1768-1771 | a field that the type does not have, with any well-formed value, changes nothing |
| Variants.OtherWireTypeFails | engine-lua/pb.c:1702-1716 | a known field with a wire type it does not take makes decoding fail, whatever follows |
| Variants.MapTakesAnyWireType | engine-lua/pb.c:1718-1725 | the wire type of a map field's tag makes no difference |
| Variants.CutValueFails | engine-lua/pb.c:1764-1784 | a message that ends inside the value of a known field is refused |
| Ring.RingByteBuf.TryWrite | core/common/RingByteBuf.cpp:82-100 | all bytes go in at the end, across the wrap, or none if they do not fit |
| Ring.RingByteBuf.Read | core/common/RingByteBuf.cpp:102-120 | takes the first bytes, across the wrap, as many as there are up to len |
| Ring.RingByteBuf.Peek | core/common/RingByteBuf.cpp:122-138 | returns the same without taking them |
| Ring.RingByteBuf.LinearReadable | core/common/RingByteBuf.cpp:140-152 | the longest window of the first readable bytes that does not wrap, empty exactly if there are none |
| Ring.RingByteBuf.LinearWritable | core/common/RingByteBuf.cpp:154-166 | the longest window of writable room that does not wrap, empty exactly if the ring is full |
| Ring.RingByteBuf.WindowIsFree | core/common/RingByteBuf.cpp:154-166 | no readable byte lies in the writable window |
| Ring.RingByteBuf.AdvanceReadIndex | core/common/RingByteBuf.cpp:168-175 | drops the first n bytes, or nothing if there are fewer |
| Ring.RingByteBuf.AdvanceWriteIndex | core/common/RingByteBuf.cpp:177-184 | the window's first n bytes become readable at the end, or nothing changes if they do not fit |
| Ring.CeilIsSmallest | core/common/RingByteBuf.h:75-87 | the rounded capacity is less than twice what was asked for |
| Ring.AppendBetween | core/common/RingByteBuf.cpp:82-100 | bytes stored from the tail slot on, wrapping, are appended to the readable sequence |
| Ring.DropBetween | core/common/RingByteBuf.cpp:102-120 | moving the head drops the first bytes, which lie in at most two pieces |
| Framing.ParseHeaderInvertsFrame | transport/Decoder.cpp:10-42 | message id, body and, between servers, player id of every frame come back, any 32-bit numbers included |
| Framing.LegalFrameIsFound | transport/Channel.h:123-149 | every frame a sender accepts passes the receiver's limits and is recognised with its full length, whatever follows it |
| Framing.PrefixIsIncomplete | transport/Channel.h:123-149 | a proper prefix of a legal frame is always incomplete, never illegal |
| Framing.PeekIsStable | transport/Channel.h:123-149 | more bytes do not change a verdict |
| Framing.ShortFrameIsTaken | transport/Channel.h:123-149 | a frame shorter than its header is taken if and only if the length field plus 4 is less than the header, and it parses to no body |
| Framing.IllegalIff | transport/Channel.h:123-149 | the verdict -2 comes exactly for a whole header with another magic number or a frame of more than 4 MB |
| Framing.IllegalIffHopeless | transport/Channel.h:123-149 | a connection is given up exactly when no bytes that may still come can make a frame of a whole header |
| Framing.KnownFrames | transport/Channel.cpp:249-258 | two frames byte by byte |
| Framing.DrainInChunks | transport/EventLoop.cpp:89-115 | cutting the stream anywhere, and draining after each chunk, finds the same frames, rest and verdict as draining it whole |
| Framing.StreamIsParsed | transport/EventLoop.cpp:89-115 | from a stream of legal frames, cut off anywhere, exactly the whole frames are found, in order, with less than one frame left over |
| Channel.EndToEnd | transport/Channel.cpp:212-370 | whatever part of what one end handed to the network has arrived at the other, in whatever chunks, the delivered frames are the first accepted ones, whole and in order, and while the channel is open nothing that arrived is missing |
| Channel.Sender.OneWriteInFlight | transport/Channel.cpp:310-370 | while the channel is open, one write is in flight exactly when bytes are waiting; what was handed to the network is a prefix of the accepted frames, and the memory of the write in flight holds just the part of it not yet acknowledged |
| Channel.Sender.EventLoopWrite | transport/Channel.cpp:212-308 | a frame is accepted whole or not at all, exactly if the channel is open, the frame is within the limit and fits; a write in flight and its memory are untouched; the channel closes exactly if a write that is due cannot be started |
| Channel.Sender.DoUvSend | transport/Channel.cpp:310-370 | starts the next write, of the longest linear run, exactly if there are bytes and the channel is open; closes the channel exactly if it cannot be started |
| Channel.Sender.OnWritten | transport/Channel.cpp:330-361 | only a successful write removes its bytes from the buffer, and the next write starts; the channel closes exactly if the write failed or the next cannot be started |
| Channel.Sender.AcceptFrame | transport/Channel.cpp:212-265 | a frame that is too long, or does not fit, leaves no trace |
| Channel.Sender.WriteAll | transport/Channel.cpp:310-370 | if every write succeeds, all that was accepted is sent and the channel stays open |
| Channel.Receiver.UvRead | transport/EventLoop.cpp:89-115 | after every chunk, the frames of the whole stream so far are delivered, up to the one during which the handler closes the channel; it closes exactly if the handler does or the stream is illegal |
| Channel.Receiver.UvAlloc | transport/EventLoop.cpp:54-70 | offers a window that is not empty, or closes the channel, exactly if the ring is full |
| Channel.Receiver.TakeOne | transport/Channel.h:123-153 | takes the next frame of the stream whole if it is there, else nothing |
| Channel.Receiver.NeverFull | transport/EventLoop.cpp:54-70 | if the stream consists of legal frames that the ring can hold, the ring is never full when the network asks for room |
| Channel.ReceiveStream | transport/EventLoop.cpp:54-115 | a stream of legal frames that the ring can hold is received however the network cuts it: the channel stays open and all whole frames are delivered |
| Channel.ClampedIsEnough | transport/Channel.cpp:19-28 | whatever size is configured, a buffer can be made, and it holds any legal frame of at most that size |
| LubanBuf.UlongOrder | code-gen/luban/ByteBuf.h:431-523 | encodings are ordered bytewise as the numbers are, and none is a prefix of another |
| LubanBuf.UlongRoundTrip | code-gen/luban/ByteBuf.h:431-596 | every 64-bit number comes back, whatever follows it |
| LubanBuf.UintIsUlong | code-gen/luban/ByteBuf.h:294-336 | the two writers agree on 32-bit numbers |
| LubanBuf.UintRoundTrip | code-gen/luban/ByteBuf.h:294-378 | every 32-bit number comes back from either reader |
| LubanBuf.ShortRoundTrip | code-gen/luban/ByteBuf.h:173-227 | every 16-bit number comes back |
| LubanBuf.IntRoundTrip | code-gen/luban/ByteBuf.h:245-292 | every signed 32-bit number comes back, plain and zigzag |
| LubanBuf.LongRoundTrip | code-gen/luban/ByteBuf.h:381-413 | every signed 64-bit number comes back, plain and zigzag |
| LubanBuf.FixedIntRoundTrip | code-gen/luban/ByteBuf.h:230-268 | fixed-width numbers come back |
| LubanBuf.RecordIffSizeIsSmall | code-gen/luban/ByteBuf.h:792-817 | unmarshalling delimits a record of at most maxSize bytes, and reports too little or too much without moving the index, if and only if the size is below 2^31 or refused as a negative number |
| LubanBuf.HugeRecordIsAccepted | code-gen/luban/ByteBuf.h:792-817 | an input that is accepted and moves the read index below zero |
| LubanBuf.HugeSizeIsNegative | code-gen/luban/ByteBuf.h:729-741 | the first two of five bytes say whether a size becomes negative |
| LubanBuf.StringIffEndFits | code-gen/luban/ByteBuf.h:690-702 | reading and skipping a string are right if and only if the announced end is a 32-bit index |
| LubanBuf.HugeStringIsThrown | code-gen/luban/ByteBuf.h:690-702 | an input announcing 2^31 bytes: reading throws, skipping succeeds with the index below zero |
| LubanBuf.LargeStringOverruns | code-gen/luban/ByteBuf.h:690-702 | an input whose end overflows: reading runs past the buffer, skipping succeeds with the index below zero |
| LubanBuf.FailureAndTheIndex | code-gen/luban/ByteBuf.h:690-721 | which failures leave the read index alone: of readString exactly those in which no size could be read, of skipBytes and unmarshalling all |
| LubanBuf.StringRoundTrip | code-gen/luban/ByteBuf.h:678-702 | a written string is read back, and delimited as a record |
| LubanBuf.ByteBuf.Append | code-gen/luban/ByteBuf.h:743-749 | the bytes are put at the end of the contents, through compaction and growth |
| LubanBuf.ByteBuf.CompactOrResize | code-gen/luban/ByteBuf.h:887-908 | what is readable moves to the front unchanged, in the same array exactly if it is large enough |
| LubanBuf.ByteBuf.CalcNewCapacity | code-gen/luban/ByteBuf.h:819-826 | doubling ends at a capacity that is enough and no more than twice too large |
| LubanBuf.ByteBuf.TryInplaceUnmarshalBuf | code-gen/luban/ByteBuf.h:792-817 | the method, with signed and wrapping indexes, computes this unmarshalling; the buffer is in order afterwards unless the index has become negative |
| LubanBuf.ByteBuf.ReadString | code-gen/luban/ByteBuf.h:690-702 | the method computes this reading, its overflowing test included |
| LubanBuf.ByteBuf.SkipBytes | code-gen/luban/ByteBuf.h:90-101 | the method computes this skipping |
| LubanBuf.ByteBuf.ReadUintAt | code-gen/luban/ByteBuf.h:338-378 | takes the number and its bytes, or leaves index and contents alone |
| LubanBuf.ByteBuf.ReadUlongAt | code-gen/luban/ByteBuf.h:525-596 | takes the number and its bytes, or leaves index and contents alone |
| LubanBuf.ByteBuf.ReadShortAt | code-gen/luban/ByteBuf.h:199-227 | takes the number and its bytes, or leaves index and contents alone |
| LubanBuf.ByteBuf.WriteUint | code-gen/luban/ByteBuf.h:294-336 | the encoding is put at the end of the contents |
| LubanBuf.ByteBuf.WriteUlong | code-gen/luban/ByteBuf.h:431-523 | the encoding is put at the end of the contents |
| LubanBuf.ByteBuf.WriteString | code-gen/luban/ByteBuf.h:678-688 | size and bytes are put at the end of the contents |
| LubanForms.UlongIsWritten | code-gen/luban/ByteBuf.h:431-523 | the number of bytes for each range, and that the bytes, most significant first, are the number with the mark of its range on top |
| LubanForms.UlongIsRead | code-gen/luban/ByteBuf.h:525-596 | any bytes are read as what is left without the mark that the first byte announces; too few are refused |
| LubanForms.UintIsRead | code-gen/luban/ByteBuf.h:338-378 | the 32-bit reader takes the same bytes for the same number up to four bytes, and any five from 0xf0 on |
| LubanForms.ShortIsWritten | code-gen/luban/ByteBuf.h:173-197 | the bytes of shorts for each range |
| LubanForms.KnownNumbers | code-gen/luban/ByteBuf.h:230-523 | a few numbers byte by byte |

## Left out

Queue and actors:

- Weak memory orderings: steps are sequentially consistent. Each access to memory that threads share is one step, but
  constructing an element and publishing the tail is one step, and so are the stores to links and flags with which a
  producer makes a block its tail block, and moving an element out and counting it as consumed.
- Wrap-around of the queue's indices, `MAX_SUBQUEUE_SIZE` and the leeway test at a block's end: indices are unbounded.
- Throwing constructors and assignments, spin counts, sleeping, debug locks, and a failed allocation of the first index.
- `enqueue_bulk` beyond its effect on the tail counter, producer choice, consumer tokens, move, swap and statistics.
- A bulk consumer's loop over its blocks is covered by `LateConsumerFindsItsElement` for each index and has no method of
  its own.
- The kernel semaphore is a counter; which sleeper it wakes is left open.
- The mailbox in `Actors` is one FIFO per sender with a scan that is not atomic. `Queue` and
  `Tickets.LoneFailureMeansEmpty` show that a sub-queue is such a FIFO; the choice between sub-queues is not modelled.
- Threads' ends, and everything an actor does with a call besides running it.

Protobuf runtime:

- Out-of-memory paths and the Lua stack: Lua tables are maps and sequences.
- PrepBuffSize: allocation succeeds, and its upper limit of about 3 * 2^30 bytes is not modelled.
- Floats and doubles, and numbers given as strings.
- PackOneTo: refuses the floating-point formatters `f` and `F`, which the code packs.
- PackFmtTo: the same for formats with these letters.
- AddMessage: takes tables whose values have the type of their field and records below 2^64 bytes; the Lua errors for
  others are not modelled.
- Hooks, metatables, explicit default values, enum names, negative enum numbers (cast from double to unsigned, undefined),
  dead types, and the descriptor loader.
- Offsets in `Table` count slots, not bytes; `pb_resizetable` with a smaller size is not called and not modelled.
- Buckets in `Names` are sequences, the hash function is a parameter, and a reference count does not overflow its 16 bits.
- The indexes in `Fields` are maps; reference counts of names and default values that `pbT_freefield` drops are not included.

Connections:

- libuv, sockets, timers, logging, failed serialization, growth of the scratch buffer, and the ring used from two threads.
- A channel is two classes, one per direction, each with its own `closed` flag.
- `ceilToPowerOfTwo` is a recursion, not the bit trick; move and clear of the ring are not modelled.

luban:

- CalcNewCapacity: needs above 2^30, for which the doubling overflows, are excluded.
- RoomFor: buffers over 2^30 bytes and indexes within nine bytes of 2^31 are excluded, because `calcNewCapacity` would overflow.
- Signed overflow of an index, undefined in C++, wraps around; memory behind the buffer is not modelled.
- The unrolled shifts are written as the functions `Big` and `FromBig`.
- Floats, `readBytesNotCopy`, hex and file helpers.

Not modelled at all: discovery, data access, bindings for other stores, configuration and generated code.
