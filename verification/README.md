# DripBox: a model and its proofs

DripBox synchronises a directory between clients and a group of servers. The servers elect a coordinator with
a bully-style protocol; both sides are built on home-made C containers, an arena allocator and stackless
coroutines. This project models five parts of it and proves what they keep:

* **Hash table** (`HashChains`, `TableModel`, `HashTables`, `HashRemovals`, `Primes`, `Arithmetic`): collision
  chains are 1-based links inside a flat entry array. The chains are acyclic, disjoint and complete in every
  state reached by creation, inserts, updates and growth; growth discards all links and puts every element back
  into its own slot; any history of inserts and updates answers lookups as a finite map. Removal keeps the
  chains exactly when the removed slot is not a chain's last slot behind another one; both ways in which a
  removal goes wrong are reached by inserts.
* **Leader election** (`Uuids`, `ElectionServer`, `ElectionRuns`, `ElectionTimeouts`, `ElectionRoles`,
  `ElectionGroup`, `ElectionMembers`, `ElectionClocks`, `ElectionTermination`, `ElectionLoops`,
  `ElectionAgreement`, `ElectionFollowers`, `ElectionStale`, `ElectionFinish`, `ElectionFairness`,
  `ElectionContests`, `Transitions`): one server is a class with the fields the C code assigns; a fully
  connected group is a transition system with messages in flight. Elections always stop if and only if the
  integer comparison that picks the receivers of ELECTION ranks the members as `election_higher_id` does; so
  does fairness suffice to end them. Every group can come to rest from every reachable state within two
  timeouts. At rest after an election there is one master, the top-ranked member; that everyone follows it is
  certain exactly in groups of at most two.
* **Coroutines and scheduler** (`Timers`, `Scheduling`, `Arenas`, `Frames`, `Coroutines`, `BitMath`): lifted
  locals are saved to and loaded from an arena frame byte by byte; the dispatcher is a round robin over the
  array-backed FIFO.
* **Growable array and FIFO** (`DynamicArrays`): sequence operations over an in-place buffer, the
  one-element-too-long move of insert, first in first out, and the amortised cost of growth.
* **Directory reconciliation** (`SetDifferences`, `Listings`, `Synchronising`, `StringViews`, `Checksums`,
  `Reconciliation`): the two set differences that bring the client's directory to the server's state, the memory
  they share, and the path and checksum code they rest on. `Wrappers` holds the optional values.

## Atomic steps

The C code spreads the election over a network thread and a scheduler thread that share fields without a common
lock. The model takes as one step: one message handled, one `start_election`, one slice of a coroutine between
two yields, one victory claim. The stated invariants hold at that granularity; interleavings inside a step are
not modelled. Clock readings are inputs. Within one server's run they do not go back; in a group they are
arbitrary unless a lemma says otherwise. Messages in flight may be delivered in any order unless a lemma says
otherwise. `dripbox_election_timeout` is its initial value 1, in seconds; the program never assigns it.

## Where the code does less than it says

* `election_higher_id` is a strict total order, but not by age: uuid bytes are written big-endian and read through a
  little-endian bit-field, so the low byte of the creation time is compared first (`Uuids.HigherIdOfGenerated`,
  `Uuids.NotByAge`). The log text "newer than us" in the COORDINATOR handler is therefore not accurate.
* The test at server.c:1038 compares whole 128-bit integers, an order other than `election_higher_id`. Where the two
  disagree on some pair of members, elections can follow each other for ever (`ElectionLoops.StopIffCompatible`), even
  when in every round every message is handled, in order, and every running election coroutine is resumed
  (`ElectionContests.FairnessSufficesIff`). Two servers started in successive milliseconds can be such a pair
  (`ElectionLoops.GeneratedPairLoops`, `ElectionContests.GeneratedContest`). The comment there speaks of skipping newer
  replicas; the test skips those with a larger integer.
* A COORDINATOR message overtaken by another sender's can leave a server following a member that is not master. This
  happens in every group of three or more and in no smaller one (`ElectionStale.AgreesIffAtMostTwo`);
  `ElectionFollowers.AgreementIffHeardLast` says after which runs the coordinators agree.
* The timeout belongs to the election coroutine, not to the election: an election is won within the timeout of its
  start exactly when the coroutine of an earlier one is still running (`ElectionTimeouts.WonEarlyIff`).
* Removing a chain's last entry behind another leaves the predecessor linked to the emptied slot
  (`HashChains.RemoveKeepsChains`), and an insert after a removal may overwrite a live slot
  (`HashChains.InsertAfterRemove`). `HashRemovals.BothHappen` builds a table for each.
* `next_power_of_two` does not return for arguments above 2^63 (`BitMath.ReturnsIff`).
* Aligned allocation checks the space before adding the padding (`Arenas.OverrunIffPaddingMissing`).
* `sv_index` accepts a needle that starts right behind the end of the view, and stops at a NUL inside it
  (`StringViews.IndexIsExact`).
* The two differences of the client come from one temporary ring of 16384 bytes. From 342 files on either side the
  second array is the memory of the first: nothing is downloaded, and an empty client stays empty
  (`Synchronising.ConvergesUpTo341`, `Reconciliation.LostAt342`). A difference of 683 entries is written behind the
  end of the ring (`Synchronising.OverrunIff`); nothing is claimed of such a call.
* The client skips deletions too when the server lists no file (`Synchronising.ConvergesUpTo341`), and a one-byte
  checksum cannot tell all contents apart (`Synchronising.ContentsConverge`).

## Model

| member | source | states |
|---|---|---|
| `Primes.TrialDivision` | lib/common.h:119-131 | the 6k±1 trial division decides primality for every int; its products fit in 32 bits exactly when the argument is not a prime at or above 2147117569 |
| `Primes.NoSmallDivisorMeansPrime` | lib/common.h:126-130 | a number without a divisor below i is prime once i * i exceeds it |
| `Primes.SixStepsCovered` | lib/common.h:126-128 | testing i and i + 2 in steps of 6 leaves out only multiples of 2 and 3 |
| `Primes.TestCandidates` | lib/common.h:126-130 | the loop decides primality of a number that 2 and 3 do not divide, and ends at the first candidate whose square exceeds a prime |
| `Primes.SquareOfLastCandidate` | lib/common.h:126 | the last square the loop computes fits in 32 bits exactly for arguments below 2147117569 |
| `Primes.AlwaysAnotherPrime` | lib/common.h:140-145 | Euclid: above every number there is a prime, so the search ends |
| `Primes.NextPrime` | lib/common.h:133-148 | the result is the least prime above n (2 for n <= 1), and for a 32-bit n no product overflows exactly when the result is below 2147117569 |
| `HashChains.RemainderIsModulo` | lib/hash_set.h:308 | the bucket function of the model is the source's remainder |
| `HashChains.SameBucketIff` | lib/hash_set.h:308 | two hashes share a bucket if and only if their 64-bit unsigned values are congruent modulo the bucket count |
| `HashChains.ChainMeetsBucket` | lib/hash_set.h:315-330 | following links meets each live slot of the bucket once, in increasing order, and nothing else |
| `HashChains.ChainsPartitionSlots` | lib/hash_set.h:48-63 | a bucket's chain is acyclic and holds exactly the slots in use whose hash belongs there, so the chains are pairwise disjoint and cover all slots in use |
| `HashChains.AppendFirstOfBucket` | lib/hash_set.h:379-387 | writing the next free slot and naming it in an empty bucket keeps all chains whole |
| `HashChains.AppendBehindTail` | lib/hash_set.h:388-394 | linking the next free slot behind the last entry of its bucket keeps all chains whole |
| `HashChains.RemoveKeepsChains` | lib/hash_set.h:436-452 | removal leaves well-formed chains if and only if the slot is not a tail with a predecessor |
| `HashChains.RemoveTailBreaksChain` | lib/hash_set.h:438-446 | for a tail with a predecessor the predecessor keeps its link to the emptied slot |
| `HashChains.TailIffLastOfRivals` | lib/hash_set.h:436-446 | a slot is a tail with a predecessor if and only if an earlier slot in use has a congruent hash and no later one |
| `HashChains.InsertAfterRemove` | lib/hash_set.h:374-377 | after a removal the slot the next insert writes is live exactly when the removal emptied another slot |
| `TableModel.AppliedKeepsDistinct` | lib/hash_set.h:397-415 | inserts and updates never leave two equal elements |
| `TableModel.LookUpApplied` | lib/hash_set.h:397-415 | map law: an update binds its key, an insert binds it only if unbound, no other key changes |
| `TableModel.HistoryIsAMap` | lib/hash_set.h:397-429 | after any history of inserts and updates a lookup gives the last update of its key or else the first insert |
| `TableModel.VisibleRemoved` | lib/hash_set.h:22-36 | scanning the slots after any removal, tail or not, misses exactly the removed element |
| `TableModel.LookUpRemoved` | lib/hash_set.h:431-455 | a lookup after losing x fails for keys equal to x and is unchanged for all others |
| `HashTables.HashTable.constructor` | lib/hash_set.h:241-270 | a new table is empty and valid; its bucket count is 5 or the least prime above the capacity. Valid and Compact, which every operation below keeps as stated, include: the bucket count is a prime above the capacity, the length counts the elements seen in the slots and so never exceeds the capacity, cached hashes are right, no two elements are equal, all chains are whole |
| `HashTables.FollowChain` | lib/hash_set.h:305-334 | the search loop finds an equal element of the bucket or proves there is none; it ends because links only go to later slots |
| `HashTables.WalkChain` | lib/hash_set.h:315-333 | the inner loop of the search, from a bucket head |
| `HashTables.NotInBucketNotHeld` | lib/hash_set.h:307-321 | an element not met in its bucket is nowhere in the table, as equal elements hash alike |
| `HashTables.HashTable.Find` | lib/hash_set.h:305-334 | found exactly when an equal element is stored, with its 1-based slot; otherwise location 0 |
| `HashTables.HashTable.At` | lib/hash_set.h:417-429 | the answer is the lookup in the finite map the table stands for |
| `HashTables.HashTable.Insert` | lib/hash_set.h:407-415 | adds exactly when no equal element is held; the elements become those of the map insert; the capacity doubles only when full and the bucket count is then the least prime above it |
| `HashTables.HashTable.Update` | lib/hash_set.h:397-405 | the elements become those of the map update, in the same slot if the key was there |
| `HashTables.HashTable.InsertLocation` | lib/hash_set.h:336-395 | appends the element; after a growth it is still absent, so the sanity assertion holds |
| `HashTables.HashTable.GrowEntries` | lib/hash_set.h:344-365 | copies all elements into an array of at least double capacity, in their slots |
| `HashTables.HashTable.GrowBuckets` | lib/hash_set.h:287-303 | from erased links, re-inserting each element writes it back to its own slot, meets no duplicate and starts no second growth; elements and length are unchanged |
| `HashTables.NewElementIsAbsent` | lib/hash_set.h:299-302 | an element about to be re-inserted equals none of those before it |
| `HashTables.HashTable.Link` | lib/hash_set.h:374-394 | the new element lands in slot length, hung at the end of its chain |
| `HashTables.Hang` | lib/hash_set.h:379-394 | writes one slot and its chain's last link; every other entry keeps hash and value |
| `HashTables.ChainEnd` | lib/hash_set.h:389-392 | the walk to the last entry of the chain ends there |
| `HashTables.Erase` | lib/hash_set.h:280-285 | marks every slot unused and leaves hash and value |
| `HashTables.Unlink` | lib/hash_set.h:436-452 | the successor, if any, moves into the slot and its own slot is emptied; a bucket head is cleared only for a lone element |
| `HashTables.HashTable.Remove` | lib/hash_set.h:431-455 | the visible elements lose exactly the removed one and the length counts them in all cases; the table stays well chained unless an earlier element has a hash congruent to the removed one's and no later one, and exactly then |
| `HashRemovals.BrokenChain` | lib/hash_set.h:438-446 | for any two unequal elements with equal hashes: inserting both and removing the second leaves the first linked to an emptied slot |
| `HashRemovals.OverwrittenNext` | lib/hash_set.h:374-377 | for any three unequal elements, two with equal hashes: after a removal the slot the next insert writes holds a live element |
| `HashRemovals.BothHappen` | lib/hash_set.h:431-455 | concrete elements for which both happen |
| `HashRemovals.FirstGrowth` | lib/hash_set.h:344-365 | the first insert into a table without room leaves capacity 4 and 7 buckets |
| `BitMath.NextPowerOfTwo` | lib/common.h:111-117 | the least power of two at or above the argument |
| `BitMath.ReturnsIff` | lib/common.h:111-117 | in 64-bit arithmetic, where the last bit is shifted out, the loop ends exactly for arguments up to 2^63; exactly then the result is representable |
| `BitMath.AlignedToRoundsUp` | lib/common.h:13-17 | for every power-of-two alignment in 64 bits the mask expression is rounding up to the next multiple |
| `BitMath.AlignUpRoundsDown` | lib/common.h:13-17 | the least multiple at or above a size is size + alignment - 1 rounded down |
| `DynamicArrays.DynamicArray.WithCapacity` | lib/dynamic_array.h:154-166 | an empty array of the given capacity |
| `DynamicArrays.DynamicArray.Reserve` | lib/dynamic_array.h:168-189 | contents are kept and the capacity ends strictly above the request |
| `DynamicArrays.ReservedCapacity` | lib/dynamic_array.h:176-187 | a reallocation leaves twice the least power of two that is at least the request and at least 2 |
| `DynamicArrays.DynamicArray.EnsureAllocated` | lib/dynamic_array.h:62-64 | a NULL array becomes an empty one of capacity 2 |
| `DynamicArrays.DynamicArray.Push` | lib/dynamic_array.h:58-71 | contents gain the element at the end; the cost account is charged for a reallocation |
| `DynamicArrays.DynamicArray.Pop` | lib/dynamic_array.h:73-79 | returns and drops the last element |
| `DynamicArrays.OpenSlot` | lib/dynamic_array.h:202-212 | the move of one element more than the tail stays inside the buffer because the capacity exceeds the new length |
| `DynamicArrays.DynamicArray.Insert` | lib/dynamic_array.h:191-213 | contents gain the element at the index, from every reachable state |
| `DynamicArrays.DynamicArray.RemoveAt` | lib/dynamic_array.h:215-232 | contents lose exactly the element at the index |
| `DynamicArrays.DynamicArray.FifoPush` | lib/dynamic_array.h:281-284 | the element is enqueued |
| `DynamicArrays.DynamicArray.FifoTryPop` | lib/dynamic_array.h:286-294 | takes out the oldest element, or fails on the empty queue and changes nothing |
| `DynamicArrays.DynamicArray.FifoTryPeek` | lib/dynamic_array.h:296-303 | shows the oldest element, or fails on the empty queue |
| `DynamicArrays.FirstInFirstOut` | lib/dynamic_array.h:281-294 | for any interleaving of pushes and pops: what has left, then what is still queued, is what was queued and then pushed, in that order |
| `DynamicArrays.AddKeepsAmortised` | lib/dynamic_array.h:176-187 | a reallocation takes capacity 0 to 4 or doubles it, and the bound on copied elements is kept |
| `DynamicArrays.AmortisedGrowth` | lib/dynamic_array.h:168-189 | over any mix of n additions and any removals at most 2n elements are copied |
| `DynamicArrays.GrowthCopies` | lib/dynamic_array.h:168-189 | an array that started NULL has copied at least half its capacity less one |
| `Timers.Delay.constructor` | lib/coroutine.h:264-268 | the initialising call stores the bound and the start time |
| `Timers.Delay.Resume` | lib/coroutine.h:268-273 | one resume tests the elapsed time it had saved before taking the new one |
| `Timers.CompletesOneResumeLate` | lib/coroutine.h:264-275 | the delay is over exactly one resume after the first that sees the bound reached, at once for a bound <= 0 |
| `Timers.RunningTimer` | lib/coroutine.h:264-275 | while running, the timer holds the time its last resume saw |
| `Scheduling.Dispatcher.Resume` | lib/coroutine.h:287-300 | one resume of the dispatcher runs the oldest coroutine, then queues what it pushed, then the coroutine itself unless it completed |
| `Scheduling.DispatchConserves` | lib/coroutine.h:290-295 | the queue loses the coroutine that ran only if it completed and gains exactly what was pushed |
| `Scheduling.OrderAfter` | lib/coroutine.h:290-295 | the running order after a dispatch: all that waited, then what was pushed in that order, then the coroutine itself unless it completed |
| `Scheduling.TraceFollowsDrain` | lib/coroutine.h:290-295 | the queued coroutines run in the order in which they leave the queue, whatever they do |
| `Scheduling.PushedRunFirst` | lib/coroutine.h:290-295 | what a coroutine pushed runs before that coroutine runs again, in the order of the pushes, on exactly the next dispatches behind all that waited |
| `Scheduling.RoundRobin` | lib/coroutine.h:287-300 | a coroutine with k others nearer the pop end runs on exactly the (k + 1)-th dispatch, those k before it in order, whatever is pushed or completes |
| `Scheduling.TraceIsDispatched` | lib/coroutine.h:287-300 | the initialising call runs nothing, the later ones run the trace of the queue, and once the queue was found empty the dispatcher is over for good |
| `Arenas.Arena.constructor` | lib/Allocator.h:161-171 | an empty arena over the buffer |
| `Arenas.Arena.Alloc` | lib/Allocator.h:173-181 | fails exactly when the bytes do not fit, otherwise bumps the address |
| `Arenas.Arena.AllocAligned` | lib/Allocator.h:200-209 | returns the aligned address unless the size without padding does not fit |
| `Arenas.OverrunIffPaddingMissing` | lib/Allocator.h:202-207 | a successful aligned allocation runs past the end exactly when the size fits but the padding does not |
| `Arenas.Arena.DetachBytes` | lib/Allocator.h:187-198 | bytes are set aside at the front, or at the end for a negative size |
| `Arenas.Arena.RingAlloc` | lib/Allocator.h:260-271 | a request that does not fit behind the last one starts again at the front, whatever its size |
| `Arenas.RingRepeats` | lib/Allocator.h:260-271 | two equal requests to an unused ring get the same memory exactly when they do not fit side by side |
| `Frames.LoadedAfterSaved` | lib/coroutine.h:72-105 | frame round trip: for any sizes and power-of-two alignments that fit, loading gives back every saved variable |
| `Frames.SlotInFrame` | lib/coroutine.h:82-84 | every variable's slot lies between the start and the end of the frame |
| `Frames.SlotIsAligned` | lib/coroutine.h:82 | every slot is a multiple of its variable's alignment |
| `Frames.SlotsArePacked` | lib/coroutine.h:82-86 | each slot is at the first aligned address behind the one before it, and the frame ends with the last |
| `Frames.SlotsAreDisjoint` | lib/coroutine.h:82-86 | a slot ends before any later one begins |
| `Frames.SavedInSlot` | lib/coroutine.h:82-84 | after saving a frame, each variable's bytes stand in its slot |
| `Frames.SavedOutside` | lib/coroutine.h:72-88 | saving a frame writes only between its start and its end |
| `Frames.SavedAfterLoaded` | lib/coroutine.h:114-120 | saving what was just loaded leaves memory as it was |
| `Frames.SlotSurvives` | lib/coroutine.h:187-194 | bytes at or behind the end of a frame are still there after the frame is saved again |
| `Coroutines.Coroutine.SaveVars` | lib/coroutine.h:72-88 | memory and arena position after saving any list of variables |
| `Coroutines.Coroutine.LoadVars` | lib/coroutine.h:90-105 | the variables found where saving put them; memory is not changed |
| `Coroutines.Coroutine.Start` | lib/coroutine.h:107-126 | the first call saves the frame and leaves the coroutine running without a label |
| `Coroutines.Coroutine.Enter` | lib/coroutine.h:114-129 | a later call loads the saved values and goes on exactly when the coroutine is running; a completed one keeps its frame |
| `Coroutines.Coroutine.Yield` | lib/coroutine.h:171-177 | the label is set and the frame holds the current values |
| `Coroutines.Coroutine.Return` | lib/coroutine.h:179-195 | the result is placed behind whatever the body allocated and survives the save that follows; the frame holds the current values |
| `Coroutines.Coroutine.End` | lib/coroutine.h:132-138 | the coroutine ends completed unless it failed |
| `Coroutines.YieldThenEnter` | lib/coroutine.h:145-152 | the values loaded on resume are exactly those saved at the last yield, and the body goes on behind it |
| `Uuids.HigherIdIsTotalOrder` | server.c:67-72 | election_higher_id is a strict total order |
| `Uuids.SwappedOrder` | lib/dripbox_common.h:476-481 | big-endian bytes read little-endian compare by the least significant differing byte |
| `Uuids.GeneratedBytes` | lib/dripbox_common.h:474-486 | the first six bytes are the time, most significant byte first; bytes 6 and 8 hold version and variant over random bits; bytes 7 and 9 to 15 are random |
| `Uuids.IntegerOrder` | lib/dripbox_common.h:474-486 | as integers, identities compare by the last differing of their sixteen bytes |
| `Uuids.HigherIdOrder` | server.c:67-72 | by election_higher_id they compare by the last differing of the first six bytes, and with equal times by the last differing of the others |
| `Uuids.HigherIdOfGenerated` | lib/dripbox_common.h:474-486 | for different creation times the election order compares the low byte of the time first, whatever the random bytes |
| `Uuids.NotByAge` | lib/dripbox_common.h:474-486 | of two servers created in successive milliseconds of November 2024 the earlier one ranks below, whatever the random bytes |
| `Uuids.ThreeGenerated` | lib/dripbox_common.h:474-486 | servers of three successive milliseconds can have identities that both orders rank alike |
| `ElectionServer.DripboxServer.constructor` | server.c:320-340 | a server starts as its own master with no replica and no election |
| `ElectionServer.DripboxServer.StartElection` | server.c:1027-1062 | nothing while an election runs; otherwise ELECTION goes to the replicas not above it as integers, and the coroutine is created and queued unless still running |
| `ElectionServer.DripboxServer.Solicit` | server.c:1030-1046 | the receivers of ELECTION, over all slots of the replica table |
| `ElectionServer.DripboxServer.ElectionSlice` | server.c:1075-1129 | one slice: exit when the election is over, claim when the timer has completed, then resume the timer |
| `ElectionServer.DripboxServer.Notify` | server.c:1096-1105 | COORDINATOR goes to every connected replica |
| `ElectionServer.DripboxServer.HandleCoordinator` | server.c:769-784 | a higher sender is accepted, any other is answered with a new election |
| `ElectionServer.DripboxServer.HandleAddReplica` | server.c:953-989 | a new address is recorded and known from then on, a known one keeps its entry; coordinator and role are updated |
| `ElectionServer.ToldOncePerSlot` | server.c:1096-1105 | a claim is written to every replica once for each slot in which it is connected |
| `ElectionServer.AskedOncePerSlot` | server.c:1030-1046 | of these replicas an election asks exactly those that are not above the server as integers |
| `ElectionServer.DripboxServer.Dispatch` | lib/coroutine.h:290-296 | the scheduler step of a server: the election slice or another coroutine, and the queue afterwards |
| `ElectionRuns.RoleKept` | server.c:769-784 | every event keeps: master exactly when its own coordinator, otherwise following a higher server |
| `ElectionRuns.QueueKept` | server.c:1051-1060 | every event keeps: the election coroutine is queued once while running and not otherwise, and a running election has it |
| `ElectionRuns.RunKeeps` | server.c:1027-1131 | role, queue and timer invariants over every run of a server from its start |
| `ElectionRuns.ElectionScheduledOnce` | server.c:1048-1060 | no running election is orphaned or driven twice, over all restarts, stops and wins |
| `ElectionTimeouts.WonEarlyIff` | server.c:1051-1077 | in every reachable state without an election: one started now can be won less than the timeout later, and then is won at that reading whatever the other coroutines push and whichever complete, if and only if the coroutine of an earlier one is still running and was created before |
| `ElectionTimeouts.OverdueWins` | lib/coroutine.h:287-300 | an election whose coroutine was created a timeout ago is won at the present reading under every behaviour of the other coroutines |
| `ElectionTimeouts.WonWithinTheSecond` | server.c:1051-1077 | such a state is reached, and the election is won zero seconds after its start |
| `ElectionRuns.CreatedAt` | server.c:1054-1059 | a running election coroutine was created by an event of the run at its timer's start and has run since |
| `ElectionRuns.VictoryAfterTimeout` | server.c:1069-1081 | a claim comes at least the timeout after the event that created the coroutine |
| `ElectionTimeouts.EndedElectionLeaves` | server.c:1076-1128 | in every reachable state without an election, as many dispatches as the queue is long take the election coroutine out of it, whatever the others push or complete |
| `ElectionTimeouts.NextElectionIsPunctual` | server.c:1048-1060 | an election started after that has a coroutine and a timer of its own and is not won before the timeout, whatever happens |
| `ElectionTimeouts.ClaimedBehindTheTimeout` | server.c:1069-1081 | an election is claimed by exactly the first slice behind one, other than the very first, that saw the timeout reached |
| `ElectionRoles.MasterIffClaimedSince` | server.c:769-787 | in every reachable state a server is master, and its own coordinator, if and only if it has claimed since it was last told of a higher one |
| `ElectionMembers.Perform` | server.c:769-787 | a server whose connected replicas are the other members becomes and writes, for every event, what the group's step says |
| `ElectionGroup.StepKeepsRanked` | server.c:769-787 | every step of the group keeps roles, coordinators and messages in order |
| `ElectionGroup.RunKeepsRanked` | server.c:769-787 | so does every run |
| `ElectionGroup.Leader` | server.c:979-989 | following coordinators ends, at a master that is the server itself or higher |
| `ElectionGroup.LeadersAreMasters` | server.c:979-989 | every server's leader is a master, and the top-ranked server is always master |
| `ElectionGroup.ReachableLeaders` | server.c:329-337 | both hold in every reachable state |
| `ElectionTermination.StartCost` | server.c:1027-1047 | an ELECTION weighs one more than the election it starts and the messages that writes |
| `ElectionTermination.ClaimCost` | server.c:1096-1105 | a running election outweighs the messages of its claim |
| `ElectionTermination.DeliverPays` | server.c:769-787 | handling a message never writes or becomes more than the message weighed |
| `ElectionTermination.StepCost` | server.c:1027-1061 | the measure drops at every delivery and claim and no other unprompted step raises it |
| `ElectionTermination.ElectionsStop` | server.c:1076-1124 | a run without outside triggers makes at most the measure's number of deliveries and claims |
| `ElectionLoops.CyclesForEver` | server.c:1038 | where the two orders disagree on a pair of members, unprompted runs with any number of claims exist, at one clock reading |
| `ElectionLoops.StopIffCompatible` | server.c:1038 | elections always stop if and only if the integer test ranks the members as election_higher_id does, over all runs and over those whose clocks do not go back |
| `ElectionLoops.GeneratedPairLoops` | server.c:1038 | two generated identities of successive milliseconds for which they do not stop |
| `ElectionAgreement.CampaignStep` | server.c:1076-1105 | the first claim comes from the top, which tells everyone, or reaches the top |
| `ElectionAgreement.SettledKept` | server.c:769-787 | until the top has acted or a server was told, no step loses the message that will tell it |
| `ElectionAgreement.UniqueMaster` | server.c:769-787 | at rest after at least one election the top-ranked member is the only master and everyone's leader, for any order, timing, triggers and uuids |
| `ElectionFollowers.AgreementInOrder` | server.c:773-777 | if each server handles its messages in sending order, every coordinator is the top-ranked member at rest |
| `ElectionFollowers.AgreementIffHeardLast` | server.c:773-777 | in every reachable state at rest all coordinators are the top-ranked member if and only if each other member heard of the top last, by an accepted COORDINATOR or an introduction; its own claims do not matter |
| `ElectionFollowers.InformedThroughout` | server.c:773-777 | in every reachable state the top is still to act, or its COORDINATOR is under way to a server, or the server follows the top exactly when it heard of it last |
| `ElectionStale.BesideRun` | server.c:769-787 | any run can go on, event by event, while one message waits in flight |
| `ElectionStale.AgreementCanFail` | server.c:773-777 | in every group: for any member x below the top and any z below x, a run with clocks that do not go back ends at rest with z following x |
| `ElectionStale.AgreesIffAtMostTwo` | server.c:773-777 | every run that has come to rest after an election leaves all coordinators at the top-ranked member if and only if the group has at most two members, whether or not clocks may go back |
| `ElectionStale.GeneratedCanDisagree` | server.c:773-777 | three generated identities, ranked alike by both orders, that can disagree at rest |
| `ElectionFinish.CanFinish` | server.c:1076-1124 | from every state, whatever the identities, some unprompted run leads to rest, with clocks that do not go back and within two timeouts of the present or of the latest creation of a coroutine |
| `ElectionFinish.EveryElectionCanFinish` | server.c:1076-1124 | every reachable state after a trigger can come to rest with the top-ranked member as the one master; if the clocks have not gone back they need not, and two timeouts are enough |
| `ElectionClocks.RunKeepsStarted` | server.c:1054-1059 | no running coroutine was created after the latest clock reading of the run |
| `ElectionFairness.FairRoundIsProductive` | server.c:1069-1124 | whatever the identities, a fair round of a group that is not at rest handles a message or makes a claim |
| `ElectionFairness.FairRunsRest` | server.c:1069-1124 | of members both orders rank alike, every run of more fair rounds than the measure ends at rest |
| `ElectionFairness.FairRunsElect` | server.c:1069-1124 | after any triggered run of such members, all sufficiently many fair rounds end with the top-ranked member as the one master |
| `ElectionContests.PendingKept` | server.c:769-787 | while the oldest message is handled first, a claim of the lower rival that no later claim to it follows keeps it in an election or about to be |
| `ElectionContests.ContestRound` | server.c:1038 | in a group of any size with two members the orders rank differently: a round that handles every message in order, resumes every running coroutine and lets no server stay in its election leads from a contest to the next, one tick later |
| `ElectionContests.FairnessSufficesIff` | server.c:1038 | enough fair rounds lead to rest from every reachable state if and only if the integer test ranks the members as election_higher_id does; otherwise not even such strict rounds do |
| `ElectionContests.GeneratedContest` | server.c:1038 | two generated identities for which they do not |
| `StringViews.IndexIsExact` | lib/string_view.h:49-62 | sv_index finds the first occurrence in the view exactly unless the delimiter stands right behind the view or only behind a NUL in it |
| `StringViews.IndexInCstr` | lib/string_view.h:49-62 | in a view that ends at its NUL it always does |
| `StringViews.JoinSplit` | lib/string_view.h:111-123 | joining the parts of a split gives back the string |
| `StringViews.SplitIsDelimiterFree` | lib/string_view.h:111-123 | no part holds the delimiter |
| `StringViews.SplitJoin` | lib/string_view.h:111-123 | splitting a join gives back the parts exactly when they are delimiter-free, so no two such lists join to the same string |
| `StringViews.SplitIterator.constructor` | lib/string_view.h:148-155 | the iterator stands before all parts of the split |
| `StringViews.SplitIterator.Next` | lib/string_view.h:111-123 | moves to the next part while there is one; otherwise the current part stays |
| `StringViews.SkipEndsAtNul` | lib/string_view.h:28-33 | skipping inside a C string leaves a view that ends at the same NUL |
| `StringViews.IteratorLast` | lib/iterator.h:15-25 | the walk ends and returns the last part |
| `StringViews.EqualsUpToNul` | lib/string_view.h:253-255 | sv_equals compares lengths and the text up to a NUL |
| `StringViews.EqualsIsEquality` | lib/string_view.h:253-255 | on NUL-free views it is equality |
| `StringViews.AppendComponent` | lib/string_view.h:191-206 | the buffer holds both components with a separator only where one is needed; bytes behind stay |
| `StringViews.PathCombine` | lib/string_view.h:289-309 | the buffer holds the combined path, without one trailing NUL, and is terminated |
| `StringViews.CombineExtends` | lib/string_view.h:191-206 | a combined path begins with what was combined before and ends with the component, with at most one character between |
| `StringViews.CombineIsJoin` | lib/string_view.h:289-309 | plain names are joined by single separators |
| `StringViews.TrailingSeparator` | lib/string_view.h:191-197 | a separator at the end of a directory makes no difference to the paths below it |
| `StringViews.NoNewDouble` | lib/string_view.h:191-197 | combining brings no two separators next to each other |
| `StringViews.NoEmptyParts` | lib/string_view.h:289-309 | no part of a combined path is empty where the components bring no empty part |
| `StringViews.UserPath` | server.c:336 | the server's own directory and a user name combine to a path of two parts |
| `StringViews.LastOfSplit` | lib/string_view.h:111-123 | behind the last delimiter stands the last part |
| `StringViews.LastOfPath` | lib/string_view.h:191-206 | a separator-free name is the last part of every path that ends in it |
| `StringViews.FileName` | client.c:379-380 | splitting a path and walking to the end gives its last part |
| `StringViews.RequestedName` | client.c:679-680 | the name sent to the server is the name the path was combined from |
| `SetDifferences.Contains` | lib/array.h:70-81 | true exactly when some element matches |
| `SetDifferences.SurvivorsAreInOrder` | lib/array.h:89-97 | the kept positions increase and are exactly those without a match in b or earlier in a |
| `SetDifferences.MetBefore` | lib/array.h:91-93 | for a transitive comparison, searching the output is as good as searching all earlier elements |
| `SetDifferences.SetDifference` | lib/array.h:83-100 | for any comparison: what the loop puts out stands at the start of the buffer, and it runs over exactly when that is longer than the buffer |
| `SetDifferences.OutputIsDifference` | lib/array.h:83-100 | for a transitive comparison the output is the order-keeping, duplicate-free difference |
| `SetDifferences.DifferenceIsExact` | lib/array.h:83-100 | for any equivalence the result holds exactly the classes of a that b lacks |
| `SetDifferences.DifferenceHasNoMatch` | lib/array.h:91-93 | no element of the result matches a later one |
| `Checksums.Checksum` | lib/dripbox_common.h:196-201 | the negated sum of the bytes mod 256 |
| `Checksums.FileChecksum` | lib/dripbox_common.h:203-230 | for every way the reads split the file, the sum mod 256 of the bytes read; 255 without a file |
| `Checksums.CompleteRead` | lib/dripbox_common.h:213-229 | a complete read gives the negation mod 256 of dripbox_checksum over the whole contents |
| `Checksums.OneByte` | lib/dripbox_common.h:196-201 | the checksums of a single byte |
| `Checksums.SumReplaced` | lib/dripbox_common.h:203-230 | replacing one byte changes the sum by the difference of the two bytes |
| `Checksums.OneByteIsDetected` | lib/dripbox_common.h:203-230 | contents of one length that differ in exactly one byte have different checksums |
| `Checksums.OrderIsNotDetected` | lib/dripbox_common.h:203-230 | reorderings of the same bytes have the same checksum |
| `Reconciliation.NameEquals` | lib/dripbox_common.h:136-140 | equality of names, through sv_equals |
| `Reconciliation.EntryEquals` | lib/dripbox_common.h:142-146 | equality of name and checksum |
| `Listings.NameDifference` | client.c:665 | the files to delete are exactly those whose name the server does not list, each once |
| `Listings.EntryDifference` | client.c:662 | the files to fetch are exactly those missing here or listed with another checksum, each once |
| `Reconciliation.EntryArray.constructor` | lib/array.h:58-62 | an array of the requested length, of whose elements those inside the ring are usable |
| `Reconciliation.EntryArray.Fill` | lib/array.h:83-100 | the array becomes the difference, unless that is written behind the end of the ring |
| `Reconciliation.Differences` | client.c:659-665 | the two lists as memory holds them: the second difference, twice, where two arrays do not fit the ring side by side |
| `Reconciliation.SyncDirectory.Scan` | client.c:640-650 | every file of the directory with its checksum |
| `Reconciliation.SyncDirectory.Download` | client.c:376-403 | the file arrives under the name it was asked for, unless the server lacks it or the download fails |
| `Reconciliation.SyncDirectory.DeleteAll` | client.c:668-676 | the directory loses the listed names except those whose unlink fails |
| `Reconciliation.SyncDirectory.DownloadAll` | client.c:677-683 | the directory holds the server's contents for the listed names except those whose download fails |
| `Reconciliation.SyncDirectory.Compare` | client.c:640-665 | the names in the two lists, and exactly when a list runs over the ring |
| `Reconciliation.SyncDirectory.Update` | client.c:639-684 | the directory after deleting and downloading what the lists in memory name |
| `Reconciliation.SyncDirectory.Reconcile` | client.c:639-685 | exactly when the call stays inside the ring, and then the directory after it, or the unchanged one when the guard fails; the ring is given back |
| `Synchronising.MemoryBounds` | client.c:659-665 | the two lists are the same memory exactly from 342 files on either side; a list runs over the ring exactly from 683 entries |
| `Synchronising.BothWays` | client.c:668-683 | with the list that memory holds, the two loops make of the directory what Reconciled says |
| `Synchronising.EitherOrder` | client.c:662-683 | the two sets share no name, and deleting first or downloading first gives the same directory |
| `Synchronising.AgreesExactly` | client.c:662-683 | a name ends settled exactly when the operation it needed was made and did not fail |
| `Synchronising.OverrunIff` | client.c:659-665 | a call writes behind the ring exactly when the listing is not empty and 683 files or more are to be deleted or to be fetched |
| `Synchronising.Converges` | client.c:639-684 | the call stays inside the ring and ends with the server's names and checksums if and only if the lists fit, no needed deletion failed and every needed download was made (or nothing is listed and nothing is there) |
| `Synchronising.ConvergesUpTo341` | client.c:639-684 | when nothing fails the call converges if and only if the listing is not empty (or the client is) and both sides have at most 341 files (or nothing is to be fetched and at most 682 files are to be deleted) |
| `Synchronising.FetchedWhole` | client.c:662-683 | an empty client gets every file of a server with at most 341 |
| `Synchronising.NothingArrives` | client.c:662-683 | an empty client stays empty against 342 to 682 files, and runs over the ring against more |
| `Reconciliation.LostAt342` | client.c:662-683 | a server of 341 files that is fetched whole, and one of 342 of which nothing arrives |
| `Synchronising.ContentsConverge` | client.c:639-684 | the contents end equal if and only if the call converges and no kept file hides other contents behind an equal checksum |
| `Synchronising.SettlesExactly` | client.c:639-684 | where the first call stays inside the ring so does a second, and it changes nothing unless only the first one shared its memory and something is left to fetch |
| `Synchronising.TwoCallsConverge` | client.c:639-684 | when nothing fails two calls converge if and only if the listing is not empty (or the client is), at most 682 files are to be deleted, and the server has at most 341 files (or nothing is to be fetched) |

## Left out

- Sockets, polling, multicast, inotify, `sendfile`, logging, the command line: input and output.
- Mutexes and interleavings inside a handler or coroutine slice: the code shares fields without a common lock there.
- The yields while a claim waits for a monitor (server.c:1092-1111): a claim is one step.
- Notifying clients and the name server of a claim (server.c:1090, server.c:1107-1122): the messages leave the group.
- The pings that detect a lost coordinator (server.c:886-902): they are a trigger that may come at any time.
- DripboxServer: the replica table is a sequence of slots filled in order, as the hash table is when nothing is removed from it; read errors, which end a handler early, are not modelled.
- Lookups on a hash table after the removal of a chain's tail behind another entry: they walk into an emptied slot.
- Insert: covers tables whose slots in use are the first ones; `InsertAfterRemove` says exactly when a removal keeps that, and otherwise the insert overwrites a live slot.
- Update: covers the same tables as Insert.
- InsertLocation: covers the same tables as Insert.
- Link: covers the same tables as Insert.
- The `hash_set_insert` macro (lib/hash_set.h:106-117): it passes five arguments to a function of three; the `hash_table_*` entry points are modelled.
- Elements of the hash table as bytes, the allocation of its arrays, and 32-bit handles beyond 2147483647 slots.
- The branches of lookup and removal for an unused entry inside a chain (lib/hash_set.h:318, lib/hash_set.h:425, lib/hash_set.h:441): in every modelled state no chain holds one.
- Reserve: does not model a failed allocation or the wrap-around of 64-bit sizes.
- The creation of a default stack when a coroutine has none (lib/coroutine.h:78-81), `co_yield_return`, `co_when_all` and `co_continue_with`: they add no harder state.
- AllocAligned: does not model address arithmetic that wraps around 64 bits.
- `allocator_arena_detach_frame` and `co_temp`: their results do not match their descriptions.
- Reconcile: says exactly when a list is written behind the end of the temporary ring, and nothing about what happens then; the results about calls (`Synchronising`) treat such a call as having no outcome. The temporary ring is unused when the call begins, as its only other users give back what they took.
- Differences: does not model the bytes of the entries; an array is the part of its elements that lies inside the ring.
- SplitIterator.constructor: covers views that end at their NUL and delimiters of one character, as all callers have them; `IndexIsExact` says when the search itself is right.
- AppendComponent: excludes results longer than PATH_MAX, which the source writes out of bounds.
- PathCombine: the result is a new buffer, while the source reuses one static buffer for each call site; paths longer than PATH_MAX, which the source writes out of bounds, and an empty result are excluded.
- Scan: does not model an order of the entries or a failing scandir.
- Download: a failed download leaves the old file; partly written files are not modelled. The server's files do not change between listing and download.
- FileChecksum: does not model a failing fstat, which gives 255 like a missing file.
- `socket_redirect_to_file` (lib/Network.h:579-602): it asks for the smaller of length and buffer instead of the remaining count.
- `dripbox_server_handle_list_user` (server.c:1168-1220) and `dns.c`: easy members, or a comparison of records of another layout.
- AgreementInOrder: a sufficient condition on deliveries; `AgreementIffHeardLast` is the exact one on runs, `AgreesIffAtMostTwo` the exact one on groups.
