# Models of Open MPI's back-end algorithms

A Dafny model of the algorithms of Open MPI 3.1.2 whose correctness spans
processes, rounds or recursive structures, with proofs of what they are for.
`dafny verify dfyconfig.toml` checks all of it.

**Context ids** (`CidRounds`, `CidNetwork`, `CidContexts`, `CidOwnership`,
`CidSystem`, `CidTermination`).
A new communicator gets an id that is free at every participant. Each process
reserves its lowest free table slot, the maximum of the offers is tried by
all, and the minimum of the success flags decides between committing and
rolling back. `CidRounds` gives the three callbacks as functions of one
process and proves what an accepted and a rejected round do; `CidNetwork` runs
any number of processes asynchronously against collectives that complete when
all have contributed, shows that every run follows the lockstep run, and
derives agreement, progress and the bound; `CidContexts` has the callbacks as
methods that update the context and the table in place, each proved equal to
the function; `CidOwnership` interleaves several allocations at one process
through the `lowest_id` gate, whatever the other processes answer. `CidSystem`
combines the two: any number of processes with any number of allocations in
flight, each process with one table and one gate, agree on one CID an
allocation and never block each other; `CidTermination` bounds their runs.

**Group allreduce** (`GroupAllreduce`): the binary tree of reduce and
broadcast over point-to-point messages, as a transition system over the ranks.

**Request scheduler** (`RequestScheduler`): active list, schedules,
sub-requests and the progress pass, for callbacks that may append to their own
request and start others, and sub-requests that complete when they do.

**Datatype constructors** (`TypeMaps`, `Datatypes`, `Vectors`, `Merging`,
`Grid`, `Subarrays`, `Darrays`, `DarrayTypes`, `Reconstruction`). A datatype
denotes a typemap, a sequence of basic types with displacements (section 4.1 of
MPI-3.1). The constructors are methods that grow and resize datatype objects
through the one primitive of the OPAL layer; they are proved against reference
typemaps, and these against coordinates: which elements of a global array a
sub-array or a rank of a process grid selects, in which order. The bounds of a
type are two markers displaced with every copy, so that the bounds of what a
constructor builds follow from the same reference typemaps. `Reconstruction`
calls the constructor that a description names.

**Packed descriptions** (`Descriptions`, `Packing`, `Unpacking`, `Meanings`):
the recursive writer into a buffer whose size was charged in advance, the
recursive reader, the round trip, when the charge suffices, and, by way of the
reference typemaps of the constructors, that a rebuilt description denotes the
typemap of the packed one.

**Sequence tracker** (`SeqTracker`): a compacting list of ranges with a
remembered cursor, against a plain set of ids.

**Attributes** (`Attributes`): keyvals living by reference count, replacement,
copying, and deletion in reverse order of setting with callbacks that fail
(section 6.7 of MPI-3.1).

**Two message-passing programs** (`Connectivity`, `Ring`): whole-run theorems
for every number of processes. `Options`, `Totals` and `Arithmetic` hold what
several of these modules share.

## Where the code and its description disagree

The model follows the code. For each of these it has the exact condition and
an input at which the code fails.

- An extent or stride of -1 byte is taken for "default extent"
  (`opal/datatype/opal_datatype_add.c:121-124`). Vectors are therefore laid out
  as the standard says exactly when the byte stride is not -1 or does not
  matter (`Vectors.StrideIsHonoured`, `Vectors.StrideMinusOne`); sub-arrays go
  wrong only over an aligned type of extent -1 whose first two dimensions have
  one element (`Subarrays.Misread`, `Subarrays.MisreadSubarray`); block and
  cyclic distributions never do.
- `ompi_datatype_create_hindexed_block` compares a byte displacement with one
  displaced by an element count, so it moves blocks together that are not
  adjacent (`Merging.FalseNeighbours`, `Merging.BlocksPulledTogether`).
- The increment that rounds an extent to the alignment is not always the least
  one: padding added by an earlier block stays when a later one moves the lower
  bound (`Datatypes.PaddingStays`, `Datatypes.PaddedTwice`), and a negative
  extent gets one alignment more (`Datatypes.AddedBounds`,
  `Datatypes.RoundedTooFar`).
- An undistributed dimension over several processes is replicated in
  column-major order and divided in row-major order (`DarrayTypes.Replicated`,
  `DarrayTypes.SecondRankSelects`).
- The size charged for a duplicate made directly of a predefined datatype is
  one integer too small (`Packing.DupOfNamed`, `Packing.PackDuplicate`).
- Inserting 0 next to a range that ends at the last 32-bit id, or that id next
  to a range that starts at 0, destroys the range under the cursor
  (`SeqTracker.Tracker.WrapsAround`, `SeqTracker.LastThenFirst`,
  `SeqTracker.FirstThenLast`).
- A non-participant of a CID allocation that finds no free slot commits the
  table's maximum without looking whether that slot is taken
  (`CidOwnership.Fits`); two of them end with the same CID
  (`CidOwnership.TwoOnOneSlot`).

## Model

| member | source | states |
|---|---|---|
| CidContexts.CommTable.TestAndSet | openmpi-3.1.2/opal/class/opal_pointer_array.c:340-398 | a slot is taken, and only then changed, exactly when it was empty |
| CidContexts.CidContext.TakeLowest | openmpi-3.1.2/ompi/communicator/comm_cid.c:320-337 | the search loop takes the lowest free slot from `start` on, or none if all below the maximum are taken, and then touches nothing |
| CidContexts.CidContext.GetNextCid | openmpi-3.1.2/ompi/communicator/comm_cid.c:300-364 | the whole new context and table are what the specification step `Reserve` makes of the old ones, exhaustion included |
| CidContexts.CidContext.CheckCid | openmpi-3.1.2/ompi/communicator/comm_cid.c:366-403 | likewise for `Check`: keep the slot if it won, otherwise give it back and try for the winning one |
| CidContexts.CidContext.NextCidCheckFlag | openmpi-3.1.2/ompi/communicator/comm_cid.c:405-457 | likewise for `Decide`: commit, or roll back and move `start` past the slot |
| CidRounds.LowestFree | openmpi-3.1.2/ompi/communicator/comm_cid.c:323-331 | the result is free and no smaller slot from `from` on is, or it is the maximum and none is free |
| CidRounds.AcceptedIffTarget | openmpi-3.1.2/ompi/communicator/comm_cid.c:320-386 | a round is accepted by all exactly when the winning slot is the smallest one acceptable to every participant |
| CidRounds.AcceptedRound | openmpi-3.1.2/ompi/communicator/comm_cid.c:413-442 | an accepted round leaves every participant with that same slot, holding its new communicator, and every non-participant with its own lowest free slot; nothing else in any table changes |
| CidRounds.RejectedRound | openmpi-3.1.2/ompi/communicator/comm_cid.c:444-456 | a rejected round leaves every table as it was, keeps the hypotheses of the next round, and moves the `start` of a participant just past the winner, which was too small |
| CidRounds.RoundCounts | openmpi-3.1.2/ompi/communicator/comm_cid.c:366-457 | the bookkeeping of a round: one iteration for the check and one more for a retry, the CID decided on, the communicators untouched |
| CidRounds.NextWinnerIsLarger | openmpi-3.1.2/ompi/communicator/comm_cid.c:444-456 | after a rejected round the next winner is strictly larger, and never beyond the target: the retry loop has a measure |
| CidRounds.AccurateTarget | openmpi-3.1.2/ompi/communicator/comm_cid.c:300-457 | with accurate `start` values the slot aimed at is the smallest slot free at all participants |
| CidRounds.TargetExists | openmpi-3.1.2/ompi/communicator/comm_cid.c:300-457 | if some slot below the maximum is acceptable to all, there is a smallest one |
| CidNetwork.Convergence | openmpi-3.1.2/ompi/communicator/comm_cid.c:300-457 | run in lockstep, the retry loop ends within one round per slot between the present bound and the target, with everybody finished on the target |
| CidNetwork.StepFollows | openmpi-3.1.2/ompi/communicator/comm_cid.c:338-402 | every step of an asynchronous run, in which a process goes on as soon as the collective it waits for is complete, keeps each process at the same state it has after as many stages in lockstep |
| CidNetwork.Agreement | openmpi-3.1.2/ompi/communicator/comm_cid.c:300-457 | for every number of processes, all tables and every schedule: whoever has committed has committed the target (or, not participating, its own slot), somebody can go on as long as somebody runs, and no run is longer than three steps a slot and process |
| CidNetwork.SmallestCommonSlot | openmpi-3.1.2/ompi/communicator/comm_cid.c:300-457 | with accurate starts and some common free slot, the CID agreed on in every schedule is exactly the smallest slot free at all participants |
| CidOwnership.StepIsOwnChange | openmpi-3.1.2/ompi/communicator/comm_cid.c:300-457 | with several allocations in flight at one process, a step of one of them takes only free slots, releases only slots it holds and changes no other slot, unless it commits a non-participant onto a taken slot |
| CidOwnership.OwnedIffFits | openmpi-3.1.2/ompi/communicator/comm_cid.c:405-442 | from any state in which every slot has at most one holder and no slot is lost, a step keeps that if and only if it is not the commit of a non-participant onto a taken slot |
| CidOwnership.Ownership | openmpi-3.1.2/ompi/communicator/comm_cid.c:247-457 | over every interleaving admitted by the `lowest_id` gate: in every state of the run the initial table survives, finished communicators have new and pairwise different CIDs at which they are stored, and every other taken slot has one holder, if and only if every commit of a non-participant in the run finds an empty slot |
| CidOwnership.TwoOnOneSlot | openmpi-3.1.2/ompi/communicator/comm_cid.c:413-430 | a run of two allocations at a process that participates in neither and whose table is full: both end with the same CID, and the first communicator is overwritten |
| CidOwnership.StartsDescend | openmpi-3.1.2/ompi/communicator/comm_cid.c:313-318 | what the gate is for: in any run, until an allocation ends, rounds are started in descending order of the ids, none before an allocation with a smaller id that has started |
| CidOwnership.EndOpensGate | openmpi-3.1.2/ompi/communicator/comm_cid.c:432-442 | when an allocation ends, by commit or exhaustion, every waiting one may start |
| CidSystem.StepKeepsSys | openmpi-3.1.2/ompi/communicator/comm_cid.c:300-457 | any processes, tables and allocations in flight: every step of any of them keeps the rounds of each allocation in order, the collectives' contributions, and every gate open or set by an unfinished allocation |
| CidSystem.OneCidPerAllocation | openmpi-3.1.2/ompi/communicator/comm_cid.c:300-457 | in every run of them, all participants of an allocation that commit commit the same CID |
| CidSystem.DifferentCids | openmpi-3.1.2/ompi/communicator/comm_cid.c:247-457 | ... and at every process different allocations get different CIDs that were free there and hold their communicators, as long as commits of non-participants fit |
| CidSystem.GatesNeverBlockAll | openmpi-3.1.2/ompi/communicator/comm_cid.c:313-318 | as long as an allocation is unfinished somewhere and no table is exhausted, some process can go on: the `lowest_id` gates never block all of them |
| CidTermination.WinnersGrow | openmpi-3.1.2/ompi/communicator/comm_cid.c:444-456 | whatever other allocations do to the tables between its rounds, the winners of an allocation's rounds strictly increase |
| CidTermination.EveryRunEnds | openmpi-3.1.2/ompi/communicator/comm_cid.c:300-457 | every run of any processes and allocations has at most 3 * max + 5 steps for each process and allocation, and one that cannot go on has committed every allocation at every process, or a table is exhausted |
| GroupAllreduce.TreeIsFold | openmpi-3.1.2/ompi/communicator/comm_cid.c:1110-1114 | for every size the value the binary tree forms at its root is the fold of all inputs in rank order, for any associative and commutative operation |
| GroupAllreduce.Progress | openmpi-3.1.2/ompi/communicator/comm_cid.c:1025-1146 | as long as some rank is not done, some rank can take a step |
| GroupAllreduce.AllreduceCorrect | openmpi-3.1.2/ompi/communicator/comm_cid.c:1025-1146 | for every size, all inputs and every schedule: the run ends after exactly 2n - 1 steps for n ranks, and then, and only then, every rank holds the fold of all inputs and no message is left |
| GroupAllreduce.Node.ReceiveComplete | openmpi-3.1.2/ompi/communicator/comm_cid.c:1047-1060 | the loop over the children folds the received values, left to right, into the rank's own |
| RequestScheduler.Scheduler.ScheduleAppend | openmpi-3.1.2/ompi/communicator/comm_request.c:71-97 | an item with more than two sub-requests is refused without effect; any other goes to the end of the schedule |
| RequestScheduler.Scheduler.Start | openmpi-3.1.2/ompi/communicator/comm_request.c:162-176 | the request goes to the end of the active list and the progress function is registered, once |
| RequestScheduler.Scheduler.Poll | openmpi-3.1.2/ompi/communicator/comm_request.c:116-125 | complete sub-requests are dropped from the end, up to the first one that is not complete |
| RequestScheduler.Scheduler.Visit | openmpi-3.1.2/ompi/communicator/comm_request.c:110-150 | one visit: whatever the callback appends and starts, the request and its history become what `Visited` says, it leaves the list exactly when it is complete, and nothing else that existed changes |
| RequestScheduler.Scheduler.Progress | openmpi-3.1.2/ompi/communicator/comm_request.c:99-160 | one pass, for all callbacks: every request active at its start is visited exactly once and no other old request at all; afterwards progress is registered exactly while the active list is not empty |
| RequestScheduler.VisitedSound | openmpi-3.1.2/ompi/communicator/comm_request.c:110-150 | every visit keeps the schedule equal to what is left of the items appended, and the freed sub-requests equal to those of the items run, each once and in order; a request is completed at most once, and only with an empty schedule |
| RequestScheduler.VisitInOrder | openmpi-3.1.2/ompi/communicator/comm_request.c:110-150 | a visit frees only complete sub-requests, runs the next item exactly if all its remaining ones are complete, and completes the request exactly if nothing is left then, as failed exactly if the callback just run failed |
| RequestScheduler.VisitRuns | openmpi-3.1.2/ompi/communicator/comm_request.c:110-150 | the visit that runs a callback: the items the callback appends, as far as they are accepted, stand at the end of the schedule, the requests it starts are started, and with nothing left the request has succeeded if and only if it returned 0 |
| RequestScheduler.VisitSkips | openmpi-3.1.2/ompi/communicator/comm_request.c:110-150 | an item without a callback appends and starts nothing and counts as success |
| RequestScheduler.VisitWaits | openmpi-3.1.2/ompi/communicator/comm_request.c:116-125 | while a sub-request is incomplete nothing runs, and the item keeps its sub-requests up to the last incomplete one |
| RequestScheduler.AcceptedEach | openmpi-3.1.2/ompi/communicator/comm_request.c:71-97 | items are accepted one by one and in order, those with more than two sub-requests left out |
| RequestScheduler.RanAfterSubrequests | openmpi-3.1.2/ompi/communicator/comm_request.c:116-136 | over any passes, whatever completes when: every sub-request of an item that has run was found complete in one of the passes, and freed |
| RequestScheduler.RunsWhenReady | openmpi-3.1.2/ompi/communicator/comm_request.c:99-160 | over any passes, with other sub-requests complete in each: as many items have run as there were passes in which all remaining sub-requests of the item at the front were complete, and the request is complete, once, exactly when all items have run |
| RequestScheduler.FinishesInTime | openmpi-3.1.2/ompi/communicator/comm_request.c:99-160 | if every sub-request is complete at most k passes after its item was appended, a request is complete, once, after k + 1 passes for each item, whatever its callbacks append on the way |
| SeqTracker.CompactIsCanonical | openmpi-3.1.2/ompi/class/ompi_seq_tracker.c:86-180 | sorted, disjoint and non-adjacent range lists that cover the same ids are equal |
| SeqTracker.Tracker.CheckDuplicate | openmpi-3.1.2/ompi/class/ompi_seq_tracker.c:58-83 | true exactly for the inserted ids; the list does not change, and the cursor stays on an item |
| SeqTracker.Tracker.Insert | openmpi-3.1.2/ompi/class/ompi_seq_tracker.c:91-180 | for every 32-bit id: the list stays compact and denotes one id more if and only if the neighbour tests do not wrap around at the cursor; if they do, the range at the cursor is turned inside out |
| SeqTracker.Tracker.Copy | openmpi-3.1.2/ompi/class/ompi_seq_tracker.c:183-198 | a fresh tracker gets the same list, set and cursor |
| SeqTracker.Replay | openmpi-3.1.2/ompi/class/ompi_seq_tracker.c:58-180 | after any history, up to the first insertion that wraps around, the tracker holds exactly the inserted ids, and every check was answered from the inserts before it; a history without both 0 and the last 32-bit id has no such insertion |
| SeqTracker.HistoryForgotten | openmpi-3.1.2/ompi/class/ompi_seq_tracker.c:58-180 | the list depends on the set inserted only, not on order or cursor history |
| SeqTracker.LastThenFirst | openmpi-3.1.2/ompi/class/ompi_seq_tracker.c:117-129 | the shortest history that goes wrong: the last 32-bit id, then 0; neither is found afterwards |
| SeqTracker.FirstThenLast | openmpi-3.1.2/ompi/class/ompi_seq_tracker.c:130-143 | the other one: 0, then the last 32-bit id |
| Datatypes.Datatype.Add | openmpi-3.1.2/opal/datatype/opal_datatype_add.c:105-165 | `count` copies are appended, displaced by `disp + k * extent`, an extent of -1 standing for the default one; a count of zero changes nothing |
| Datatypes.AddedBounds | openmpi-3.1.2/opal/datatype/opal_datatype_add.c:155-237 | without user bounds, the lower bound becomes the least of the old one and all copies'; the upper bound is no less than the old one and any copy's and makes the extent a multiple of the alignment; it exceeds the largest by less than the alignment if and only if the extent is not negative or needs no rounding |
| Datatypes.RoundedTooFar | openmpi-3.1.2/opal/datatype/opal_datatype_add.c:231-236 | a negative extent that is rounded one alignment too far |
| Datatypes.UserBounds | openmpi-3.1.2/opal/datatype/opal_datatype_add.c:178-210 | a bound the user set on one side alone stands or is taken over, on both sides the outermost counts, and an upper one is not rounded |
| Datatypes.PaddingStays | openmpi-3.1.2/opal/datatype/opal_datatype_add.c:210-236 | over several additions: the upper bound is the rounded largest edge if and only if that is no less than the old upper bound with its padding |
| Datatypes.PaddedTwice | openmpi-3.1.2/ompi/datatype/ompi_datatype_create_indexed.c:69-104 | three 4-byte elements at bytes 2, 1, 0, whose extent becomes 12 instead of 8 |
| Datatypes.CopiesTile | openmpi-3.1.2/ompi/datatype/ompi_datatype_create_contiguous.c:27-42 | copies an extent apart follow each other without gap or overlap: one's upper bound is the next one's lower bound |
| Datatypes.CreateContiguous | openmpi-3.1.2/ompi/datatype/ompi_datatype_create_contiguous.c:27-42 | copies an extent apart; the bounds are the outermost ones of the copies, exactly if those are multiples of the alignment apart |
| Vectors.HVectorMapAt | openmpi-3.1.2/ompi/datatype/ompi_datatype_create_vector.c:69-98 | the reference typemap of a strided vector puts element i of copy j of block b at `b * stride + j * extent` plus its own displacement |
| Vectors.StridedExact | openmpi-3.1.2/ompi/datatype/ompi_datatype_create_vector.c:50-63 | the special-cased layouts give that typemap if and only if the byte stride is not -1 or does not matter |
| Vectors.CreateVector | openmpi-3.1.2/ompi/datatype/ompi_datatype_create_vector.c:37-66 | the constructor builds that typemap exactly under that condition; its bounds enclose all copies, the lower one exactly |
| Vectors.CreateHVector | openmpi-3.1.2/ompi/datatype/ompi_datatype_create_vector.c:69-98 | likewise for byte strides |
| Vectors.StridedSpans | openmpi-3.1.2/ompi/datatype/ompi_datatype_create_vector.c:50-98 | whichever branch is taken, also through a nested block type, the lower bound is the least of all copies', the upper one no less than any, and the extent a multiple of the alignment |
| Vectors.StrideMinusOne | openmpi-3.1.2/ompi/datatype/ompi_datatype_create_vector.c:69-98 | two elements of 4 bytes at a byte stride of -1: the constructor puts the second at byte 4, the definition at byte -1 |
| Merging.CreateIndexed | openmpi-3.1.2/ompi/datatype/ompi_datatype_create_indexed.c:33-66 | merging adjacent blocks leaves the ordered typemap of the unmerged definition, for all lengths and displacements; its bounds are the outermost ones of all copies, the upper one exactly if these are multiples of the alignment apart; with no blocks the extent is 0 |
| Merging.BlocksMapAt | openmpi-3.1.2/ompi/datatype/ompi_datatype_create_indexed.c:69-104 | the reference typemap puts item i of copy k of block j at the block's byte plus k extents plus its own displacement |
| Merging.IndexedAt | openmpi-3.1.2/ompi/datatype/ompi_datatype_create_indexed.c:33-66 | ... and, for element displacements, `disps[j] + k` extents from the origin |
| Merging.IndexedBounds | openmpi-3.1.2/ompi/datatype/ompi_datatype_create_indexed.c:33-66 | the bounds of an indexed type from its blocks: the least lower bound of a copy, and, if the old extent is a multiple of its alignment, the greatest upper bound of a copy; there are bounds if and only if some block is not empty |
| Merging.CreateHIndexed | openmpi-3.1.2/ompi/datatype/ompi_datatype_create_indexed.c:69-104 | likewise for byte displacements |
| Merging.CreateIndexedBlock | openmpi-3.1.2/ompi/datatype/ompi_datatype_create_indexed.c:107-144 | likewise for blocks of one length |
| Merging.HIndexedBlockExact | openmpi-3.1.2/ompi/datatype/ompi_datatype_create_indexed.c:162-178 | where this constructor puts its blocks is where it was asked to if and only if the extent is 1, nothing is to be placed, or no displacement equals the previous one plus the block length |
| Merging.CreateHIndexedBlock | openmpi-3.1.2/ompi/datatype/ompi_datatype_create_indexed.c:146-182 | the typemap the constructor builds for all arguments, and that it is the unmerged one exactly under that condition |
| Merging.BlocksPulledTogether | openmpi-3.1.2/ompi/datatype/ompi_datatype_create_indexed.c:162-178 | two blocks of two 4-byte elements at bytes 0 and 2: the second is placed at byte 8 |
| Merging.CreateStruct | openmpi-3.1.2/ompi/datatype/ompi_datatype_create_struct.c:71-97 | merging adjacent blocks of the same datatype object leaves the ordered typemap of the unmerged definition; its bounds enclose those of all members |
| Grid.OffsetsOrdered | openmpi-3.1.2/ompi/datatype/ompi_datatype_create_darray.c:234-268 | laying out increasing picks dimension by dimension gives strictly increasing linear indices below the volume |
| Grid.OffsetsMember | openmpi-3.1.2/ompi/datatype/ompi_datatype_create_darray.c:234-268 | a linear index is among them exactly when each of its coordinates is picked |
| Subarrays.SubarrayMeaning | openmpi-3.1.2/ompi/datatype/ompi_datatype_create_subarray.c:31-108 | the offsets are, in increasing order, exactly the elements with every coordinate between start and start + subsize, in both orders |
| Subarrays.CreateSubarray | openmpi-3.1.2/ompi/datatype/ompi_datatype_create_subarray.c:31-108 | the constructor gives these offsets times the extent, for every number of dimensions and both orders, if and only if no stride is misread; the extent covers the whole array |
| Subarrays.MisreadSubarray | openmpi-3.1.2/ompi/datatype/ompi_datatype_create_subarray.c:31-108 | the smallest sub-array for which one is: over a type resized to an extent of -1 |
| Darrays.OwnedExact | openmpi-3.1.2/ompi/datatype/ompi_datatype_create_darray.c:32-172 | the reference list of the indices a grid position owns in one dimension, from the block and cyclic rules of section 4.1.4 of MPI-3.1 |
| Darrays.LeastCover | openmpi-3.1.2/ompi/datatype/ompi_datatype_create_darray.c:43-47 | the default block is the least one with which the processes cover the dimension |
| Darrays.OwnsExact | openmpi-3.1.2/ompi/datatype/ompi_datatype_create_darray.c:32-172 | what a grid position owns, from the arguments alone: block c of that size or the given one, every index x with `x mod procs = c` or every procs-th given block, everything or block c of an undistributed dimension |
| Darrays.BlockOwned | openmpi-3.1.2/ompi/datatype/ompi_datatype_create_darray.c:43-73 | the run that `block` computes is that list |
| Darrays.CyclicOwned | openmpi-3.1.2/ompi/datatype/ompi_datatype_create_darray.c:103-169 | the whole and partial blocks that `cyclic` computes are that list |
| DarrayTypes.CreateBlock | openmpi-3.1.2/ompi/datatype/ompi_datatype_create_darray.c:32-90 | one block dimension over what has been built, with its start and its extent |
| DarrayTypes.CreateCyclic | openmpi-3.1.2/ompi/datatype/ompi_datatype_create_darray.c:93-172 | one block-cyclic dimension: a vector of whole blocks and a last partial block, with its start and its extent |
| DarrayTypes.ComputeCoords | openmpi-3.1.2/ompi/datatype/ompi_datatype_create_darray.c:203-216 | the loop computes the row-major grid position of the rank |
| DarrayTypes.RankOfCoords | openmpi-3.1.2/ompi/datatype/ompi_datatype_create_darray.c:203-216 | that mapping is a bijection: every grid position is the position of a rank below the size |
| DarrayTypes.CoordsOfRank | openmpi-3.1.2/ompi/datatype/ompi_datatype_create_darray.c:203-216 | ... and of that rank only |
| DarrayTypes.DarrayMeaning | openmpi-3.1.2/ompi/datatype/ompi_datatype_create_darray.c:174-300 | a rank's offsets are, in strictly increasing order, exactly the elements of which it owns every coordinate |
| DarrayTypes.BuildLayers | openmpi-3.1.2/ompi/datatype/ompi_datatype_create_darray.c:223-268 | the loop over the dimensions, in either order, lays out the picks relative to their starts |
| DarrayTypes.CreateDarray | openmpi-3.1.2/ompi/datatype/ompi_datatype_create_darray.c:174-300 | the constructor's typemap is these offsets times the extent, for every grid, distribution, argument and order; arguments of undistributed dimensions are not looked at |
| DarrayTypes.DarrayPartition | openmpi-3.1.2/ompi/datatype/ompi_datatype_create_darray.c:174-300 | all ranks together select every element of the global array exactly once if and only if no dimension is left undistributed over several processes in column-major order |
| Packing.SetArgs | openmpi-3.1.2/ompi/datatype/ompi_datatype_args.c:104-128 | the size charged in advance, with the loop over the datatypes |
| Packing.ChargeOverExact | openmpi-3.1.2/ompi/datatype/ompi_datatype_args.c:104-128 | over exact sizes the charge is larger than the packed form by exactly one integer per datatype, and smaller by one for a duplicate of a predefined one |
| Packing.PackFits | openmpi-3.1.2/ompi/datatype/ompi_datatype_args.c:81-108 | the charge covers the packed form if and only if the type is not a duplicate made directly of a predefined type, and is never short by more than one integer |
| Packing.AlwaysBudgeted | openmpi-3.1.2/ompi/datatype/ompi_datatype_args.c:228-242 | however types are nested and whenever sizes are reassessed, the size on record is short by at most one integer |
| Packing.ShortOnlyForDupOfNamed | openmpi-3.1.2/ompi/datatype/ompi_datatype_args.c:501-509 | ... and it is short exactly for a duplicate of a predefined type that has not been reassessed |
| Packing.PackInto | openmpi-3.1.2/ompi/datatype/ompi_datatype_args.c:417-478 | the recursive writer puts exactly the packed form at its position, touches nothing else, and returns where it ends and the next number |
| Packing.GetPackDescription | openmpi-3.1.2/ompi/datatype/ompi_datatype_args.c:481-532 | the packed form is written and the size reassessed to what was written; it overruns the charged size if and only if the type is a duplicate of a predefined one that has not been reassessed; reading it back gives the normalised description and stops where writing stopped |
| Packing.PackDuplicate | openmpi-3.1.2/ompi/datatype/ompi_datatype_args.c:501-509 | a duplicate of a predefined type: charged one integer, packed in two |
| Descriptions.RoundTrip | openmpi-3.1.2/ompi/datatype/ompi_datatype_args.c:417-801 | unpacking a packed description gives its normal form, and consumes exactly what was packed, for every nesting |
| Descriptions.NormalByCases | openmpi-3.1.2/ompi/datatype/ompi_datatype_args.c:681-801 | the normal form: a duplicate's is its target's, an integer variant's that of the address variant with the same arguments, anything else is normalised piece by piece |
| Descriptions.NormalIsPlain | openmpi-3.1.2/ompi/datatype/ompi_datatype_args.c:681-801 | a normal form holds no duplicate and no integer variant at any depth |
| Descriptions.PlainIsNormal | openmpi-3.1.2/ompi/datatype/ompi_datatype_args.c:681-801 | a description that holds none is its own normal form |
| Descriptions.RebuiltIsPlain | openmpi-3.1.2/ompi/datatype/ompi_datatype_args.c:417-801 | what a receiver rebuilds holds none at any depth, and is the very description that was packed if and only if that held none |
| Descriptions.VariantsArriveAlike | openmpi-3.1.2/ompi/datatype/ompi_datatype_args.c:705-751 | integer variants arrive as the address variants |
| Descriptions.FixedArguments | openmpi-3.1.2/ompi/datatype/ompi_datatype_args.c:692-790 | how many arguments the constructors with a fixed number record |
| Reconstruction.Construct | openmpi-3.1.2/ompi/datatype/ompi_datatype_args.c:681-801 | the constructor that a combiner names builds the layout that the combiner denotes, if and only if the stride, neighbour and sub-array conditions hold; a resized type has the recorded bounds |
| Meanings.NormalDenotesTheSame | openmpi-3.1.2/ompi/datatype/ompi_datatype_args.c:417-478 | following duplicates to their target and recording integer combiners as the plain ones keeps the typemap and the bounds that a description denotes through the reference typemaps of the constructors |
| Meanings.RebuiltDenotesTheSame | openmpi-3.1.2/ompi/datatype/ompi_datatype_args.c:417-801 | so the datatype a receiver rebuilds has the typemap and the bounds of the one that was packed, for every nesting |
| Unpacking.UnpackAt | openmpi-3.1.2/ompi/datatype/ompi_datatype_args.c:555-671 | the recursive reader, moving through the buffer, gives what `Unpack` gives of the rest of the buffer, and where it ends |
| Unpacking.UnpackChildren | openmpi-3.1.2/ompi/datatype/ompi_datatype_args.c:621-644 | likewise for the loop over the ids, first failure included |
| Attributes.LastSet | openmpi-3.1.2/ompi/attribute/attribute.c:1253-1256 | the position of the last time an attribute was set, or -1 |
| Attributes.CountsDetermined | openmpi-3.1.2/ompi/attribute/attribute.c:501-513 | the reference counts, the hash entries and the key bits follow from which keyvals are freed and which attributes are attached |
| Attributes.CreatedKeeps | openmpi-3.1.2/ompi/attribute/attribute.c:582-629 | creating a keyval keeps the invariant: alive exactly while unfreed or in use, counted once for each reason, every attribute with a living keyval of its kind and a stamp that says when it was last set |
| Attributes.FreedKeeps | openmpi-3.1.2/ompi/attribute/attribute.c:682-711 | freeing keeps it, and destroys the keyval exactly if no attribute uses it |
| Attributes.StoredKeeps | openmpi-3.1.2/ompi/attribute/attribute.c:1187-1265 | setting keeps it, with one reference more only for a new attribute |
| Attributes.DroppedKeeps | openmpi-3.1.2/ompi/attribute/attribute.c:1070-1096 | deleting keeps it |
| Attributes.LastAttributeDestroys | openmpi-3.1.2/ompi/attribute/attribute.c:1086-1096 | deleting the last attribute of a freed keyval, and no other, removes the keyval and its key bit |
| Attributes.StoredOnly | openmpi-3.1.2/ompi/attribute/attribute.c:1253-1256 | setting stores that value and that stamp, and no other attribute of any object changes |
| Attributes.DroppedOnly | openmpi-3.1.2/ompi/attribute/attribute.c:1086-1096 | deleting removes that attribute and no other |
| Attributes.Engine.CreateKeyval | openmpi-3.1.2/ompi/attribute/attribute.c:582-629 | the lowest unused key is taken |
| Attributes.Engine.FreeKeyval | openmpi-3.1.2/ompi/attribute/attribute.c:682-711 | refused without effect for an unknown key, the wrong kind or a predefined keyval; otherwise one reference is dropped, and the invariant survives if and only if the keyval had not been freed before; it is accepted if and only if the keyval is known, of that kind, and not predefined or freed from within |
| Attributes.Engine.Get | openmpi-3.1.2/ompi/attribute/attribute.c:1277-1309 | the value last set, a false flag if there is none, an error only for an unknown key |
| Attributes.Engine.SetValue | openmpi-3.1.2/ompi/attribute/attribute.c:1187-1265 | set, replace and the failing delete callback, which leaves the old value: the whole new state in each case; refused if and only if the keyval is unknown, of another kind, or predefined and set by a user; after success the value is there and no other attribute differs |
| Attributes.Engine.DeleteAttribute | openmpi-3.1.2/ompi/attribute/attribute.c:1030-1099 | unknown key, no table, no such attribute, failing callback and success: the whole new state in each case; refused if and only if the keyval is unknown, of another kind, or predefined and deleted by a user, or the object has no table |
| Attributes.SortBySequence | openmpi-3.1.2/ompi/attribute/attribute.c:1149-1158 | all keys of the table in the order in which their values were set |
| Attributes.Engine.DeleteAll | openmpi-3.1.2/ompi/attribute/attribute.c:1120-1179 | callbacks run latest set first, down to the first that fails; exactly the attributes set after it are gone, and all are gone if and only if none fails |
| Attributes.Engine.CopyAll | openmpi-3.1.2/ompi/attribute/attribute.c:915-1018 | in any hash order: on success exactly the attributes whose callback raised its flag arrive with the callback's values, all else unchanged; the first failure stops it with its code |
| Attributes.UseOwnKeyval | openmpi-3.1.2/ompi/attribute/attribute.c:582-1309 | in any state of the engine a user can create a keyval, set an attribute with it, read the value back, delete it and free the keyval, which is gone exactly if the delete callback succeeded |
| Connectivity.IssueOperations | openmpi-3.1.2/examples/connectivity_c.c:44-59 | the nested loops issue, for every partner in increasing order, a send and a receive or the other way round |
| Connectivity.LeastCanMeet | openmpi-3.1.2/examples/connectivity_c.c:44-59 | the lexicographically least unfinished pair is always ready at both ends |
| Connectivity.NeverDeadlocks | openmpi-3.1.2/examples/connectivity_c.c:44-59 | with synchronous sends no run gets stuck, every run ends after np * (np - 1) messages, and then one message has gone each way between each pair |
| Ring.Loop | openmpi-3.1.2/examples/ring_c.c:51-73 | what a rank sends for what it receives, and that it leaves the loop exactly when the final value comes |
| Ring.RunFollowsLoop | openmpi-3.1.2/examples/ring_c.c:27-73 | in every run of all ranks, each has sent what that loop sends for what it has received, but for the message in its hands, and has left it when the loop has finished |
| Ring.StepAdvances | openmpi-3.1.2/examples/ring_c.c:27-73 | only one rank can step at any time, and its step moves the token to the next position |
| Ring.RingTerminates | openmpi-3.1.2/examples/ring_c.c:27-73 | for every ring size and start value: never more than one message in flight, no deadlock, and every run ends after exactly (m + 1) * n deliveries with all ranks out of the loop and no message left |

## Left out

- CidNetwork.Agreement: assumes that a slot acceptable to all exists below the maximum, that non-participants find a free slot, and that collectives succeed; without the first two, `CidSystem` and `CidTermination` say what still holds. The error paths of `comm_cid.c` release a slot with test-and-set to NULL, which does nothing to an occupied slot. The table's maximum is positive.
- CidOwnership.Ownership: the global id lock is modelled by callbacks being atomic, and the gate by the order of the ids; a callback that finds the lock taken or the gate shut appends itself again, which is a step that does nothing.
- CidTermination.EveryRunEnds: a process that is exhausted leaves its allocation, and the others may then wait for ever, as in the code.
- The PMIx exchange, the bridge and inter-communicator leaders and the activation of a new communicator are not part of this model.
- GroupAllreduce.AllreduceCorrect: values are of any type with an associative and commutative operation, one at a time, so the element count of a buffer is not modelled; a rank receives from its children in one step, and translating group ranks to communicator ranks is the identity.
- RequestScheduler.Scheduler.Progress: a request started by a callback is a new one; what was appended to it before counts as its first schedule. The pass is assumed to end at all: from some request number on, callbacks start no further requests. Cancellation, the free list and calls of the progress function from within a callback, which return at once, are left out.
- SeqTracker.Replay: stops at the first insertion that wraps around; `Tracker.Insert` says what that one does.
- Datatypes.Datatype.Add: the LB and UB marker types, the optimised descriptions, the flags and the size limits of the descriptor array are left out, as is the overflow of machine integers; bounds are kept because extents depend on them. Adding a type without bounds leaves the bounds alone, where the code adds the displacement to the largest and the smallest integer; no typemap depends on it.
- Merging.CreateHIndexed: for displacements out of step with the alignment its bounds are only stated to enclose all copies, the lower one exactly, with an extent that is a multiple of the alignment; `Datatypes.PaddingStays` says which multiple each addition makes of it.
- Merging.CreateStruct: the first of its two loops, which only estimates the length of the descriptor array, is left out; nor does its contract state the alignment.
- Subarrays.CreateSubarray: requires what the MPI entry point checks, subsizes of at least one inside the array.
- DarrayTypes.CreateDarray: requires, as the MPI entry point does, a grid of `size` processes and block arguments large enough to cover their dimension. The entry point lets a cyclic argument of zero through, by which the code then divides; the model requires at least one.
- Descriptions.RoundTrip: the Fortran 90 combiners are not rebuilt by the code either; byte swapping between machines of different order and padding for alignment are left out. A buffer is a sequence of 4-byte words, an address takes two.
- Unpacking.UnpackAt: a buffer that ends too early or holds a negative count or id is rejected in the model, where the code reads on; the code relies on the sender.
- Packing.GetPackDescription: where the code writes past the end of its buffer, the model's buffer is longer; the wait for another thread that packs the same datatype is left out.
- Reconstruction.Construct: one constructor at a time; requires the arguments that the MPI entry points accept.
- Meanings.RebuiltDenotesTheSame: bounds are any function of a constructor's arguments and the bounds below it; a duplicate keeps its target's. Invalid process-grid arguments denote nothing.
- Attributes.Engine.FreeKeyval: after a second free of the same keyval the invariant is gone (`SecondFreeBreaks`), and nothing is promised of later calls. Callbacks do not re-enter the engine, the key space is unbounded, and the sequence counter does not overflow.
- Attributes.Engine.CopyAll: the new object has a table, which its callers create first, and is not the old one. The translations between C and Fortran values are tables of casts and left out.
- Ring.Loop: printing is left out, and the start value is any number instead of 10.
- `ompi_comm_split_type`, the rest of `comm.c`, the convertor users, dynamic processes, error tables and predefined-type tables are left out: plumbing, tables or thin wrappers.
