# Verified model of the variant codec, the thread-safe queue and the variant heap

A Dafny 4.11 model of three parts of the ucxx library, with proofs of the properties they are
built for. `dafny verify dfyconfig.toml` checks all of it.

**The codec** (`ByteArraySerializer` over `ByteArray`). A value is a signature byte followed by a
raw scalar, a 32-bit length and bytes, or a 32-bit count and nested values. The format is written
down independently of the code as a grammar: `WireFormat` has parse trees, their bytes and their
meaning. `Codec` has what `pushValue` appends and what `popValue` reads, and `Serializer` has the
class with its buffer, its read index and its loops, proved equal to `Codec` on every input, with
the index it leaves on failure. `CodecTheorems` shows that the reader accepts exactly the sentences
of the grammar; round trip, self-delimitation, unique decodability and normalisation follow.
`WireLayout` spells the format out in letters and digits, and `FailedReads` says on the bytes alone
where the index stands after a read that fails.
`Replay` lifts this to any run of pushes, pops and resets; `ResourceBounds` bounds the recursion on
arbitrary bytes.

**The queue** (`Queue` over `Semaphore` and `Mutex`). `ThreadQueue` is a step system for any number
of threads in which each operation on the mutex, the semaphore or the inner queue is one step.
`QueueProgress` and `ClearTermination` say when `clear` and the queue as a whole can go on and when
`clear` returns whatever the schedule, `QueueHistory` follows every item through a run, and
`SharedQueue` is the class, each method of which is a run of the step system up to its return or to
where it blocks. `AppleSemaphore` and `WindowsSemaphore` are the bookkeeping of the two hand-built
semaphores as step systems of their own, `AppleWakeups` says when the former sleeps or gives up
wrongly. `AppleQueue` puts the queue on top of it, with the balance of items, false returns and calls
on their way; `AppleQueueHistory` follows every item through a run of it, `AppleQueueProgress` says what
can still go wrong from which states, and `AppleQueueRuns` has runs in which it does. `AppleSemaphoreObject` and `WindowsSemaphoreObject` are
the classes, tied to the step systems in the same way.

**The variant** (`Variant`). `VariantHeap` has the class with its tag and its union, and the
strings, lists and maps it allocates. An allocation is a heap object of its own; the variants inside
a container are stored inline (`Cell`). Every allocation knows in ghost state what lies below it and
the value it stands for; `Holds(own, v)` says that a variant owns exactly the allocations `own`, each
once, that all tags agree with their data, and that its value is `v`. A ghost `Heap` records the
allocations not freed yet. The constructor of an allocation adds to it and `Delete` takes from it,
and nothing else does, so an allocation made and lost would show in every contract.
`VariantMutation` has every operation on a variant and on the elements inside it at any depth, reading
another variant, an element of one or another element of the same one; `VariantPaths` has the laws of
places and of the operations on plain values, `VariantRuns` has whole programs on any number of variants against a sequence of independent values,
`VariantOwnership` what the invariant means for numbers and values, and `HeapCodec` reads and writes
these variants with the serializer, temporaries included.

## What the proofs say about the code

- A value survives writing and reading if and only if every string length, list size and map size
  in it is below 2^32. The lengths are stored in an `unsigned` (`src/ByteArraySerializer.cpp:239`,
  `:247`, `:257`). A longer string comes back cut to its length modulo 2^32
  (`CodecTheorems.LongStringIsCut`), a larger container comes back with as many elements, the bytes
  of the others being left in front of the next value (`LongListIsShortened`, `LongMapIsShortened`).
- A read that fails leaves the index where the value cannot go on: at its start at the end of the bytes
  and at an unknown letter, behind a letter without its scalar, length or count, behind a length without
  its bytes, in a container at the element that fails, or behind a key that is no string
  (`FailedReads.FailsWhereItStops`). The next `popValue` starts there, in the middle of the value.
- Reading and writing again normalises: duplicate or unordered map keys and Boolean bytes above 1
  disappear, the result is never longer, and it is the same bytes exactly when there was nothing to
  normalise.
- `Queue::clear` blocks for ever, with the mutex held, once a `dequeue` has passed its `wait` and not
  locked the mutex while `clear` is in its loop. Three threads and one item are enough
  (`QueueProgress.DoomedIsReachable`). It is safe from that under every schedule if and only if no
  dequeue is in flight and, while tokens are left, no other thread is between calls or waiting for a
  token (`ClearTermination.ClearIsSafe`). A `clear` that has not locked the mutex yet is safe from any
  clear doing so if and only if all other threads are dequeues waiting for a token and there is none
  (`ClearIsSafeFromTheStart`).
- `src/Sema.h:46-51` says that `wait` blocks when the counter is zero and returns false on timeout. In
  the Apple branch a `wait` without timeout can go to sleep on a positive counter, because the counter
  is tested and the condition entered under different mutexes
  (`AppleSemaphore.WaitSleepsOnPositiveCounter`). `AppleWakeups.EndangeredIffSleepsPositive` says from
  which states, `ScheduleDecides` in which schedules. So a `dequeue` can sleep with an item in the
  queue and nobody left to wake it (`AppleQueueRuns.DequeueSleepsOnItem`).
- In the Apple branch a `wait` without timeout can also return false, which `dequeue` ignores. A dequeue
  meets an empty queue exactly when the false returns so far are as many as the counter, the waits about
  to return true, the threads that have still to take their item, itself included, and the items whose
  increment is still to be stored (`AppleQueue.MeetsEmptyQueueIff`). As only the sum counts, its own wait
  may have returned true. Without a false return it never happens (`NoFalseReturnNoBreak`). After one it
  can happen with no other wait returning false, unless a wait that is about to do so holds the counter
  and an enqueue that needs the counter holds the queue (`AppleQueueProgress.BreaksAtOnceIff`). With one
  thread or more it can still happen after every run (`SomeContinuationBreaks`). The items themselves leave
  in order, each to one dequeue, whatever the waits return (`AppleQueueHistory.ItemsLeaveOnce`).
- In the Windows branch `value()` at rest differs from the kernel's counter exactly when some `wait`
  took its token before the last `notify` and decremented after it; two threads are enough
  (`WindowsSemaphore.CopyIsWrongAtRest`).

## Assumptions

- `bool` is one byte, any byte but 0 reading as true; `int` and `unsigned` are four bytes,
  little-endian, two's complement; a `double` is an opaque block of eight bytes.
- A `VariantMap` is the sequence of its entries in key order, keys compared as unsigned bytes.
- A `popValue` does not take the index to 2^32 or beyond, as it is an `unsigned`; the buffer may be
  larger than that.
- `sem_wait` is not interrupted and `ReleaseSemaphore` succeeds with a positive increment. The
  clock is not modelled: a timed wait may time out at any step.
- The mutex is an owner or none; `count()` and the loop variable of `clear` do not overflow an `int`.
- `head()` on an empty queue returns nothing in the step system and is excluded in the class.
- An assignment reads a variant that is neither inside its target nor around it, or the target itself
  (`VariantMutation.Compatible`). The original reads freed memory in the first case and, in the second,
  copies a container that holds a variant of a container type without data. A `push_back` may read
  any variant, as the library copies before it inserts.

## Model

| member | source | states |
|---|---|---|
| WireFormat.SignatureTables | src/ByteArraySerializer.cpp:5-29 | the signature table and the lookup map are inverse to each other, for all bytes and types |
| WireLayout.WrittenBytes | src/ByteArraySerializer.cpp:209-263 | every value is written as the letter of its type out of `XNBIRSLM`, then one byte 0 or 1, four bytes of two's complement lowest first, eight bytes, or the last 32 bits of the length lowest first and the content |
| WireLayout.SentenceBytes | src/ByteArraySerializer.cpp:5-29 | the same letters and digits for every sentence of the grammar, written or not |
| WireLayout.ItemStands | src/ByteArraySerializer.cpp:244-252 | the elements of a list stand behind each other in order |
| WireLayout.EntryStands | src/ByteArraySerializer.cpp:254-263 | so do the entries of a map, each a key written as a string and its value |
| OrderedMap.KeyOrder | src/Variant.h:17-17 | a key is less than another if and only if it is a proper prefix of it or has the lesser unsigned byte where they first differ |
| OrderedMap.PutMembers | src/ByteArraySerializer.cpp:335-335 | after `map[key] = v` the entries are the new one and the old ones with other keys |
| OrderedMap.PutAscending | src/ByteArraySerializer.cpp:335-335 | `map[key] = v` keeps the keys strictly ascending |
| OrderedMap.CollectMeaning | src/ByteArraySerializer.cpp:322-336 | a map filled entry by entry binds a key to the last value assigned to it |
| OrderedMap.LastBindingPlace | src/ByteArraySerializer.cpp:322-336 | the binding that counts is the one with no other for its key behind it |
| OrderedMap.CollectPermutation | src/ByteArraySerializer.cpp:322-336 | entries with distinct keys give the same map in any order |
| CodecTheorems.ReadSound | src/ByteArraySerializer.cpp:106-178 | what is accepted is a sentence of the grammar and its bytes are the ones consumed |
| CodecTheorems.ReadComplete | src/ByteArraySerializer.cpp:106-178 | every sentence of the grammar is read back, whatever surrounds it |
| CodecTheorems.ReadIffSentence | src/ByteArraySerializer.cpp:106-178 | reading gives tree `w` and index `j` if and only if `w` is spelled out from `i` to `j` |
| CodecTheorems.Unambiguous | src/ByteArraySerializer.cpp:106-178 | no sentence is a proper prefix of another and each has one parse, non-canonical ones included |
| CodecTheorems.SelfDelimiting | src/ByteArraySerializer.cpp:41-50 | a successful pop depends on the consumed bytes only, in any buffer and at any position |
| CodecTheorems.TruncationFails | src/ByteArraySerializer.cpp:41-50 | cutting the buffer anywhere before the end of the value makes the pop fail |
| FailedReads.FailsWhereItStops | src/ByteArraySerializer.cpp:106-178 | on any bytes a read fails with the index at `j` if and only if the value stops at `j`: said on bytes, letters and spelled-out elements, at any nesting |
| CodecTheorems.EncIsSentence | src/ByteArraySerializer.cpp:236-263 | an encodable value is written as the canonical sentence for it |
| CodecTheorems.RoundTrip | src/ByteArraySerializer.cpp:75-178 | between any prefix and suffix a written value is read back, index right behind it, if and only if all its lengths fit |
| CodecTheorems.LongStringIsCut | src/ByteArraySerializer.cpp:236-242 | a string of 2^32 bytes or more is read back cut to its length modulo 2^32 |
| CodecTheorems.LongListIsShortened | src/ByteArraySerializer.cpp:244-252 | a list of 2^32 elements or more is read back with its size modulo 2^32, the bytes of the rest left unread |
| CodecTheorems.LongMapIsShortened | src/ByteArraySerializer.cpp:254-263 | the same for a map |
| CodecTheorems.PrefixFree | src/ByteArraySerializer.cpp:75-104 | encodings are injective and none is a proper prefix of another |
| CodecTheorems.UniquelyDecodable | src/ByteArraySerializer.cpp:75-104 | equal concatenations of encodings come from equal sequences of values |
| CodecTheorems.MeaningIsEncodable | src/ByteArraySerializer.cpp:280-340 | whatever is decoded has ordered maps and lengths that fit |
| CodecTheorems.ReencodeIdentity | src/ByteArraySerializer.cpp:254-263 | re-encoding gives the same bytes if and only if they were canonical at every level |
| CodecTheorems.ReencodeShrinks | src/ByteArraySerializer.cpp:315-340 | re-encoding is never longer |
| CodecTheorems.Normalisation | src/ByteArraySerializer.cpp:106-178 | re-encoding what any accepted bytes decode to decodes to the same value, is not longer, and is the identity exactly on canonical bytes |
| CodecTheorems.MapDecoding | src/ByteArraySerializer.cpp:315-340 | a decoded map has exactly the keys on the wire, in order, each bound to its last occurrence |
| CodecTheorems.MapPermutation | src/ByteArraySerializer.cpp:315-340 | any permutation of entries with distinct keys decodes to the same map |
| CodecTheorems.ResourceBound | src/ByteArraySerializer.cpp:296-340 | an accepted list of n takes at least 5+n bytes, a map of n at least 5+6n, and nesting at most a fifth of the bytes |
| ResourceBounds.NestingBound | src/ByteArraySerializer.cpp:106-178 | on arbitrary bytes, accepted or not, the depth `PopValue` returns for its recursion is at most a fifth of the remaining bytes |
| ResourceBounds.CallsBound | src/ByteArraySerializer.cpp:296-340 | on arbitrary bytes the number of calls `PopValue` counts is at most the bytes consumed, plus one on failure, whatever the counts claim |
| ResourceBounds.AcceptedCost | src/ByteArraySerializer.cpp:296-340 | on accepted bytes the depth is that of the tree and the calls are as many as the values in it, keys included |
| ResourceBounds.ListReaches | src/ByteArraySerializer.cpp:296-313 | on any bytes a list costs at least a level and a call more than each element it comes to, besides the elements before |
| ResourceBounds.MapReaches | src/ByteArraySerializer.cpp:315-340 | so does a map for each key and each value it comes to |
| ResourceBounds.ListLevels | src/ByteArraySerializer.cpp:296-313 | a list is exactly one level deeper than its deepest element |
| ResourceBounds.MapLevels | src/ByteArraySerializer.cpp:315-340 | a map is exactly one level deeper than its deepest value |
| ByteBuffer.ByteArray.AppendBuffer | src/ByteArray.cpp:57-60 | the buffer grows by exactly the given bytes in order |
| ByteBuffer.ByteArray.Slice | src/ByteArray.cpp:82-87 | a new array with the bytes of the range |
| Serializer.ByteArraySerializer.PushValue | src/ByteArraySerializer.cpp:75-104 | appends the encoding of the value and changes nothing before it |
| Serializer.ByteArraySerializer.PushList | src/ByteArraySerializer.cpp:244-252 | the loop appends the encoding of the list |
| Serializer.ByteArraySerializer.PushMap | src/ByteArraySerializer.cpp:254-263 | the loop appends the encoding of the map in key order |
| Serializer.ByteArraySerializer.PopValue | src/ByteArraySerializer.cpp:106-178 | result, value and index are those of the reader whenever the index it comes to is below 2^32; on failure the caller's variable is untouched and the index is where the value stops; the bytes never change and the index stays inside them; depth and number of its calls are those that are bounded |
| Serializer.ByteArraySerializer.PopTypeSignature | src/ByteArraySerializer.cpp:190-206 | advances over a known signature only |
| Serializer.ByteArraySerializer.PopRawValue | src/ByteArraySerializer.cpp:40-50 | takes the next bytes, or fails without moving |
| Serializer.ByteArraySerializer.PopString | src/ByteArraySerializer.cpp:280-294 | succeeds if and only if the length and that many bytes are there; without the bytes the index stands behind the length, without the length where it was, and the output is untouched |
| Serializer.ByteArraySerializer.PopList | src/ByteArraySerializer.cpp:296-313 | the loop reads the list of the grammar, terminates whatever the count, and fails with the output untouched |
| Serializer.ByteArraySerializer.PopMap | src/ByteArraySerializer.cpp:315-340 | the same for maps, keys that are no strings refused |
| Serializer.ByteArraySerializer.InitWith | src/ByteArraySerializer.cpp:64-68 | takes over the bytes and starts reading at 0 |
| Replay.Call | src/ByteArraySerializer.cpp:75-183 | a call on the object is one step of the run system |
| Replay.StepRefines | src/ByteArraySerializer.cpp:75-183 | every push, pop and reset keeps buffer and index in step with the log of values |
| Replay.RunRefines | src/ByteArraySerializer.cpp:75-183 | so does every run, with the same replies |
| Replay.SerializerIsReplayableQueue | src/ByteArraySerializer.cpp:106-110 | from an empty serializer each pop returns the oldest value not popped, fails exactly when there is none, and a reset replays the history |
| Replay.EveryReply | src/ByteArraySerializer.cpp:106-183 | in any run from an empty serializer each single reply is given by the values pushed before and the successful pops since the last reset |
| Replay.Execute | src/ByteArraySerializer.cpp:75-183 | any sequence of calls on the object that keeps the index below 2^32 is the run |
| Replay.ExecuteFromEmpty | src/ByteArraySerializer.cpp:52-56 | a new serializer gives the replies of the log over any such sequence |
| Replay.FailedPopKeepsIndex | src/ByteArraySerializer.cpp:106-110 | a pop that fails on such a run leaves the index alone |
| Replay.Remaining | src/ByteArraySerializer.cpp:70-73 | from the index on the buffer is the concatenated encodings of the values not popped yet |
| ThreadQueue.NextKeepsInv | src/Queue.h:32-85 | every step of every thread keeps mutual exclusion and the balance of tokens and items |
| ThreadQueue.CountingInvariant | src/Queue.h:32-85 | in every reachable state semaphore + dequeues in flight + pushes not notified + tokens drained = queue length; no pop meets an empty queue; a clear past its loop leaves nothing and nobody in flight |
| ThreadQueue.AnswersAreExact | src/Queue.h:58-72 | in every run a count about to return has the size of the queue and a head its first item |
| ThreadQueue.StandsInItsCall | src/Queue.h:32-85 | in every run a thread stands in the code of the call it started last, an enqueue with the item it was called with |
| QueueProgress.DoomedForEver | src/Queue.h:77-85 | once a clear in its loop meets a dequeue in flight the mutex is never released, in any continuation |
| QueueProgress.DoomedIsReachable | src/Queue.h:32-85 | such a state is reachable |
| QueueProgress.ClearProceeds | src/Queue.h:77-85 | if no dequeue passes its wait, every step of a clear finds its token, under any interleaving, and the last one ends the loop |
| QueueProgress.ClearCanFinish | src/Queue.h:77-85 | some schedule takes a clear out of its loop if and only if no dequeue is in flight |
| ClearTermination.ClearIsSafe | src/Queue.h:77-85 | no schedule blocks this clear for ever if and only if no dequeue is in flight and, while tokens are left, no other thread is between calls or waiting for one |
| ClearTermination.ClearReturns | src/Queue.h:77-85 | then its next step is enabled under every schedule and as many steps of its own as items are left, and one more, end the call |
| ClearTermination.ClearIsSafeFromTheStart | src/Queue.h:77-85 | from before its lock on, no schedule leaves this clear waiting behind a clear that blocks for ever, itself or another, if and only if all other threads, if any, are dequeues waiting for a token and there is none |
| QueueProgress.DeadlockedIffWaiting | src/Queue.h:32-85 | without a clear in its loop the queue is stuck if and only if all calls in progress are dequeues waiting on an empty queue |
| QueueProgress.StuckClearIsDoomed | src/Queue.h:77-85 | a deadlock with a clear in its loop always has a dequeue in flight as its cause |
| QueueHistory.NextKeepsHistory | src/Queue.h:32-85 | every step keeps the history of pushes, removals and results consistent |
| QueueHistory.ItemsLeaveOnce | src/Queue.h:32-85 | pushes = removals ++ contents in every run; each item leaves by one dequeue or one clear, a returned dequeue removed exactly what it returned, and nothing removed by a dequeue is lost |
| SharedQueue.Queue.Enqueue | src/Queue.h:47-52 | appends the item, adds a token, and is a run of the step system |
| SharedQueue.Queue.Dequeue | src/Queue.h:32-40 | with a token removes and returns the oldest item, without one stays in its wait with nothing changed; both are runs of the step system |
| SharedQueue.Queue.Count | src/Queue.h:68-72 | the length, nothing changed |
| SharedQueue.Queue.Head | src/Queue.h:58-62 | the oldest item, nothing changed |
| SharedQueue.Queue.Clear | src/Queue.h:77-85 | finishes with queue and semaphore empty if and only if no dequeue is in flight, and otherwise is stuck in its loop with the mutex held; both are runs of the step system |
| AppleSemaphore.NextKeepsInv | src/Sema.cpp:65-103 | every step of wait, notify and value keeps counter, history and both mutexes consistent |
| AppleSemaphore.Conservation | src/Sema.cpp:164-174 | in every run the counter is not negative and is the initial value + increments - waits that returned true or are about to |
| AppleSemaphore.EveryCallCounts | src/Sema.cpp:65-174 | in every run waits started = waits returned true or false + waits inside, and increments asked for = increments stored + increments still to be stored |
| AppleSemaphore.SignalWakesOne | src/Sema.cpp:164-174 | a signal wakes exactly one wait if any sleeps, and is lost otherwise |
| AppleWakeups.EndangeredIffSleepsPositive | src/Sema.cpp:67-78 | a wait that read zero can still go to sleep on a positive counter if and only if it is positive already, or the wait has not locked the wait mutex and there is another thread, or it has and another thread can store an increment without that mutex |
| AppleWakeups.ScheduleDecides | src/Sema.cpp:67-101 | from reading zero on, a wait sleeps on a positive counter exactly in the schedules that store more increments than decrements, and gives up after waking exactly in those that do not |
| AppleSemaphore.WaitSleepsOnPositiveCounter | src/Sema.cpp:67-78 | a run that ends with a wait asleep on a counter of 1 and nobody else active |
| AppleQueue.NextKeepsInv | src/Queue.h:32-52 | over this semaphore every step keeps the queue mutex exclusive, each call where it belongs in its wait or notify, and the number of items + returned waits = increments + what is due |
| AppleQueueHistory.ItemsLeaveOnce | src/Queue.h:32-52 | in every run pushes = removals ++ contents in order; what was removed in each place has been returned by the dequeue that removed it, or exactly one dequeue is on its way out with it |
| AppleQueueHistory.EnqueuesArePushed | src/Queue.h:47-52 | in every run each item has been pushed as often as enqueue was called with it, calls still to push apart |
| AppleQueue.MeetsEmptyQueueIff | src/Queue.h:32-40 | in every run a dequeue about to take the front meets an empty queue if and only if false returns = counter + waits about to return true + threads still to take an item + items whose increment is still to be stored |
| AppleQueue.NoFalseReturnNoBreak | src/Queue.h:32-40 | in every run without a false return no dequeue has met an empty queue, and there is an item for every thread still to take one |
| AppleQueueProgress.NextComesCloser | src/Queue.h:32-52 | every step but the start of an enqueue decreases a measure of items and places, so only new enqueues keep a run going |
| AppleQueueProgress.BreaksAtOnceIff | src/Queue.h:32-40 | after any run, some continuation with no further false return meets an empty queue if and only if some wait has returned false and no failing wait and enqueue block each other |
| AppleQueueProgress.SomeContinuationBreaks | src/Queue.h:32-40 | after any run of at least one thread some continuation meets an empty queue |
| AppleQueueProgress.DeadlockedIffAsleep | src/Queue.h:32-52 | unless an empty queue was met, a deadlock is exactly a state in which all calls in progress sleep in their wait, and then the queue holds as many items as the counter exceeds the false returns |
| AppleQueueRuns.DequeueMeetsEmptyQueue | src/Queue.h:32-40 | a run of one thread that ends with dequeue taking the front of an empty queue |
| AppleQueueRuns.DequeueSleepsOnItem | src/Queue.h:32-40 | a run that ends in a deadlock with an item in the queue |
| AppleQueueRuns.BlockedIsReachable | src/Queue.h:32-52 | a run that ends with a false return made and a failing wait and an enqueue blocking each other |
| AppleSemaphoreObject.Semaphore.Wait | src/Sema.cpp:65-103 | true with one taken from a positive counter; from zero false, or asleep if it is not timed; a run of the step system |
| AppleSemaphoreObject.Semaphore.Notify | src/Sema.cpp:164-174 | the loop adds the increment, nothing if it is not positive, with one signal each; a run of the step system |
| AppleSemaphoreObject.Semaphore.Value | src/Sema.cpp:145-153 | the counter, nothing changed |
| WindowsSemaphore.NextKeepsInv | src/Sema.cpp:53-63 | every step keeps the drift between the copy and the kernel counter accounted for, and what `value` has read is still so |
| WindowsSemaphore.TokensAreConserved | src/Sema.cpp:53-162 | in every run kernel counter + tokens taken + tokens still to be released = initial value + tokens asked for |
| WindowsSemaphore.WaitsTakeTokens | src/Sema.cpp:53-63 | in every run waits started = tokens taken + waits still waiting + waits timed out, and none of the last without a timeout |
| WindowsSemaphore.CounterDrift | src/Sema.cpp:157-162 | whenever the mutex is free, copy - kernel = waits that took a token since the last release and have not decremented - waits that straddled it |
| WindowsSemaphore.ExactAtRest | src/Sema.cpp:138-144 | at rest `value()` is right if and only if no wait straddled the last release |
| WindowsSemaphore.CopyIsWrongAtRest | src/Sema.cpp:53-63 | a run that ends with nobody active, the kernel counter at 1 and the copy at 0 |
| WindowsSemaphoreObject.Semaphore.Wait | src/Sema.cpp:53-63 | true with kernel counter and copy both one lower; from zero false if it is timed and otherwise waiting on; a run of the step system |
| WindowsSemaphoreObject.Semaphore.Notify | src/Sema.cpp:155-162 | the kernel counter grows and the copy equals it afterwards, whatever it was; a run of the step system |
| WindowsSemaphoreObject.Semaphore.Value | src/Sema.cpp:138-144 | the copy, nothing changed |
| VariantHeap.TagIsType | src/Variant.h:63-63 | the tag of a variant is the type of its value |
| VariantHeap.CopyCell | src/Variant.cpp:22-26 | a deep copy has the same value and owns exactly the allocations made for it, none of which was live before; the source holds what it held |
| VariantHeap.CopyRow | src/Variant.cpp:382-386 | copying the elements of a container does so for each of them in order |
| VariantHeap.DestroyCell | src/Variant.cpp:153-178 | destroying frees exactly what the variant owns, each allocation once |
| VariantHeap.RowConcat | src/Variant.h:16-17 | variants side by side are valid if and only if each part is and the parts share nothing |
| VariantHeap.Refill | src/Variant.cpp:134-137 | assigning a container in place keeps the allocation, frees its old elements and owns new ones only |
| VariantHeap.Variant.constructor | src/Variant.cpp:9-13 | an invalid variant that owns nothing |
| VariantHeap.Variant.OfType | src/Variant.cpp:15-20 | false, zero or an empty container, type by type, in new allocations only |
| VariantHeap.Variant.Copy | src/Variant.cpp:22-26 | equal value, new allocations only |
| VariantHeap.Variant.OfScalar | src/Variant.cpp:28-44 | the Boolean, integer or real given, owning nothing |
| VariantHeap.Variant.OfContents | src/Variant.cpp:46-68 | the string or a deep copy of the container, in new allocations |
| VariantHeap.Variant.InitializeType | src/Variant.cpp:356-371 | exactly the container types allocate, once |
| VariantHeap.Variant.InitFrom | src/Variant.cpp:373-395 | a deep copy of the other variant's data by its type |
| VariantHeap.Variant.Clear | src/Variant.cpp:158-183 | frees all that was owned and leaves type invalid and data zero |
| VariantHeap.Variant.Assign | src/Variant.cpp:70-78 | the value of the other variant, what was owned freed, what is owned new; self-assignment changes nothing |
| VariantHeap.Variant.AssignScalar | src/Variant.cpp:80-108 | the Boolean, integer or real given, in place or after clearing, with the same result and nothing owned |
| VariantHeap.Variant.AssignContents | src/Variant.cpp:115-151 | in place or by clearing and allocating, the same value and the same balance of allocations; the in-place branch keeps the pointer |
| VariantMutation.Perform | src/Variant.cpp:70-183 | every operation has the effect it has on independent values and exchanges only the allocations of its target |
| VariantMutation.Nested | src/Variant.cpp:331-349 | following a path through lists and maps comes to the variant with the value there, which owns a part of what the outer one owns |
| VariantMutation.PerformAt | src/Variant.cpp:331-349 | every operation on a variant or on an element any number of levels down replaces the value there and nothing else, and exchanges only allocations of that variant; what is read elsewhere stays as it was |
| VariantMutation.PerformWithin | src/Variant.cpp:70-78 | so does an operation that reads another place in the same variant, next to the target, or the target itself, or any place for a push |
| VariantMutation.PushBack | src/Variant.cpp:331-334 | `list().push_back` appends a deep copy |
| VariantMutation.AssignEntry | src/Variant.cpp:341-344 | `map()[key] = v` stores a deep copy in the place the key order asks for |
| VariantMutation.TouchEntry | src/Variant.cpp:341-344 | `map()[key]` leaves a map that has the key as it is, value and allocations; otherwise the entries are the old ones and the key with an invalid variant, in order |
| VariantMutation.PutAtPosition | src/Variant.cpp:341-344 | storing at that place is `map[key] = v` on the entries |
| VariantPaths.EffectMeaning | src/Variant.cpp:70-183 | what each operation leaves, by values, positions and members of the entries |
| VariantPaths.PathExists | src/Variant.cpp:331-349 | a path goes exactly through elements of lists and values of maps that are there |
| VariantPaths.ApartPlaces | src/Variant.cpp:331-349 | two places are apart if and only if their paths part somewhere |
| VariantPaths.PathStep | src/Variant.cpp:331-349 | one position of a path is the element of a list or the value of an entry, and a change behind it keeps all others and the key |
| VariantPaths.PlaceHasNewValue | src/Variant.cpp:331-349 | what was put in a place is found there |
| VariantPaths.OtherPlacesStay | src/Variant.cpp:331-349 | all places neither inside nor around it keep their values |
| VariantPaths.OldValuePutBack | src/Variant.cpp:331-349 | putting back what is there changes nothing |
| VariantPaths.LastValueStays | src/Variant.cpp:331-349 | of two changes of a place the last one counts |
| VariantOwnership.OneAllocationPerNode | src/Variant.cpp:373-395 | a variant owns exactly as many allocations as its value has strings, lists and maps |
| VariantOwnership.HeapValuesOrdered | src/Variant.h:17-17 | every value on the heap has its maps in key order at all levels |
| VariantOwnership.HeapRoundTrip | src/ByteArraySerializer.cpp:75-178 | the value of any variant survives the byte array, in any surroundings, if and only if its lengths fit |
| HeapCodec.PushVariant | src/ByteArraySerializer.cpp:75-104 | writing a variant of the heap appends the encoding of its value and leaves it and the live allocations as they were |
| HeapCodec.PopVariant | src/ByteArraySerializer.cpp:106-178 | reading into a variant of the heap gives it the value of the reader in new allocations and frees the old ones; a failure leaves the variant and the live allocations as they were |
| HeapCodec.FillList | src/ByteArraySerializer.cpp:303-310 | the loop fills a local list with copies of the variants read; temporaries are gone, also after a failure |
| HeapCodec.FillMap | src/ByteArraySerializer.cpp:322-336 | the loop fills a local map, each key bound to a copy of its last value; temporaries are gone, also after a failure |
| HeapCodec.ThroughBytes | src/ByteArraySerializer.cpp:75-178 | a variant written and read again is an equal one in allocations of its own, with no byte left over, if and only if its lengths fit |
| VariantRuns.PerformApart | src/Variant.cpp:70-183 | an operation on one variant, or anywhere inside it, leaves the validity, allocations and values of all others alone |
| VariantRuns.AllocationBalance | src/Variant.cpp:356-395 | the allocations of any number of variants are counted by the strings, lists and maps in their values |
| VariantRuns.Variables.Execute | src/Variant.cpp:9-183 | a constructor, an operation at any depth or a destructor on one of many variants, reading any element of any of them, is the step on the sequence of values, and the live allocations stay exactly the owned ones |
| VariantRuns.Variables.Run | src/Variant.cpp:9-183 | so is every run: no allocation is lost, freed twice or shared, and no variant changes with another |

## Left out

- Sockets, threads and the TCP classes: operating-system calls decide what they do.
- `Mutex`: its internals; `lock` and `unlock` are one step each.
- The clock and the deadline arithmetic of timed waits and sleeps.
- Floating-point conversion, `toString`, `toBoolean`, `toInteger`, `toReal`, `numberToString` and `stringToNumber`: stream behaviour is not visible, and what the encoder needs of them is the stored scalar.
- The string functions of `StringUtils`: they would only add easy members.
- `ByteArray` indexing and its construction from strings and vectors: easy members.
- The interleaved queue and semaphores are states and steps, not objects that threads share: the classes make whole calls without interruption, each a run of the steps. Memory ordering below the mutex and the system semaphore is not modelled.
- SharedQueue.Queue.Head: an empty queue is excluded, as `front` is undefined on it.
- AppleSemaphoreObject.Semaphore.Wait: the call ends at its return or at its sleep; being woken by another thread is in the step system.
- WindowsSemaphoreObject.Semaphore.Notify: a positive increment; `ReleaseSemaphore` fails on others and leaves the variable unset that the copy is then computed from, which is undefined.
- Serializer.ByteArraySerializer.PopValue: a read that takes the index to 2^32 or beyond is excluded, since the index wraps there.
- HeapCodec.PopVariant: the local list or map of `popList` and `popMap` is a variant of that type, one allocation more than in the original while it exists, and it is copied once where the original copies it twice.
- VariantHeap.Refill: `std::list` and `std::map` assignment is destroying the old elements and copying the new ones; which nodes the library reuses is not modelled.
- VariantHeap.Variant.Assign: a source inside the target or around it is excluded, as the original reads freed memory or a container without data.
- VariantHeap.Delete: that freed memory is not used again follows from ownership, not from a check at each use.
- VariantMutation.PerformWithin: `map()[key] = ...` from another entry of the same map is two steps, `map()[key]` and the assignment between the two entries, as it is two calls in the original.
- The queue over the Apple semaphore has `enqueue` and `dequeue`, not `count`, `head` and `clear`.
- VariantRuns.Variables.Run: one operation at a time, no reads, which change nothing, and of the library's list and map operations `push_back` and `[]`.
