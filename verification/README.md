# A verified model of the iel event loop core

The model covers four stateful parts of the library: the chunked queue, the io_uring backend's
submission ring with its overflow queue and its two queues of scheduled callbacks, the bitmap
allocator for registered files, and the min-heap; and the pointer tagging they all use. Parts that
change state in place are classes or methods over arrays, proved against functions on values; what
the library promises is then proved about those functions, over single calls and over whole runs.

| file | content |
|---|---|
| `Arith.dfy`, `Bits.dfy`, `Outcomes.dfy` | quotients and remainders; 64-bit words as numbers with C's bitwise operators defined bit by bit; what a call comes to |
| `TagPtr.dfy` | the tagging templates, the portable arithmetic shift, the scheme chosen at start-up |
| `QueueSpec.dfy`, `QueueRuns.dfy` | the chunked queue on values: cursors, capacity, contents; its runs |
| `ChunkQueue.dfy` | the chunked queue over an explicit memory: map of chunk pointers, allocation, freeing |
| `IouSpec.dfy` | the loop context on values: ring, counters, overflow queue, callbacks, one turn of the loop |
| `IouRing.dfy`, `IouRuns.dfy`, `IouTasks.dfy` | the ring under wrapping counters and the drain; conservation, order and accounting over runs; when exeq stops |
| `IouTurns.dfy` | what submitting, scheduling and one turn of the loop come to, by what the client hands in and sees |
| `IouSteps.dfy` | the elementary steps every run is made of |
| `IouLinks.dfy`, `IouDelivery.dfy` | links and the drain: the cut, when the walk leaves the queue, progress; that everything reaches the kernel |
| `IouChains.dfy`, `IouBursts.dfy` | when linked submissions reach the kernel side by side; bursts between two enters |
| `IouCases.dfy` | runs from a new context in which a promise fails |
| `IouCtx.dfy` | the loop context in place |
| `SlotSpec.dfy`, `SlotRuns.dfy`, `FileTable.dfy` | the slot allocator on values, its runs, and in place |
| `HeapSpec.dfy`, `HeapRuns.dfy`, `MinHeap.dfy` | the heap on sequences, its runs, and in place |

`dafny verify dfyconfig.toml` checks everything.

## Conventions and assumptions

- Allocation outcomes are parameters (`mapOk`, `chunkOk`, `ok`), so every statement holds for every
  pattern of failures. A callback is a script, an arbitrary function from the number of callbacks
  called so far to the submissions and scheduled callbacks it makes; callbacks do nothing else to the
  context.
- Masks are remainders: `x & CHUNK_ENTS_MASK` is `x % c`, `x & sring_mask` is `x % n`. Ring counters
  are 32-bit and wrap explicitly; the ring size n divides 2^32. Queue positions and heap indices
  are unbounded.
- The kernel sees the ring from its head up to the published tail, through the index array, and moves
  the head only in the enter call. When that call succeeds it has taken every entry it saw; when it
  fails it has taken none. Taking a part of them is outside the model. A
  successful enter with no tasks pending finds at least one completion (`env.comps != []`), as the
  code assumes (`src/backends/iou.c:518`).
- Every accepted submission has a serial number that the code does not have, so that requests made
  twice are told apart.
- A pool of chunks is a map from the addresses the allocator has handed out to their contents.
  Reading, writing or freeing any other address is a failed proof obligation, and a freed address may
  be handed out again.
- Where the code is about to read or write memory that is not its own, the model stops: the outcome of
  the call is `Overrun` (departures 7, 9 and 10). A run of the loop ends where the drain's backward walk
  is about to leave the overflow queue. Results about runs say so (`!stray`).

## Where the code departs from its intent

The code is modelled as it is written. Where it fails a promise, the model has an input on which it
fails, reached from a newly created object, the exact condition under which it does not, and, where
one is evident, the intended step beside the literal one.

1. `pop_to` advances the offset by the span of the current chunk, not by the number of elements
   copied (`include/iel_priv/que.tpl.h:172`). It then keeps the elements not copied exactly when the
   request empties the queue or ends at a chunk boundary (`LiteralAdvanceConserves`); a run of queue
   operations is a FIFO's exactly when every request does (`QueueRefinesFifo`). A drain of the
   overflow queue loses submissions exactly when one of its two removals violates this
   (`DrainCounts`, `Conservation`); `LiteralRunLoses` is a run. A parameter `literal` selects the
   variant.
2. `iel_mh_sdn` swaps whenever the smaller child's key differs (`src/minheap.c:91`), and the
   precondition stated above it does not follow from removal. Keys 1, 5, 2 come out as 1, 5, 2
   (`LiteralPopMisorders`). `LiteralPopKeeps` says exactly when a removal leaves a heap. A parameter
   `strict` selects the test.
3. `regfiles` takes one slot from each bitmap word at most, and reports success when the scan has used
   the last word even if files are left over (`src/backends/iou.c:135`, `:150`). `RegisterOutcome` says
   exactly when the report is wrong, `OneSlotToAWord` is a new table on which it is.
4. `lnew` marks every bit of the last bitmap word free (`src/backends/iou.c:746`). The bitmap describes
   only slots of the table exactly when the table size is a multiple of 64 (`NewTableValid`); a table
   of one slot hands out slot 1 next (`SlotPastTheEnd`).
5. A submission goes to the ring whenever the ring has room, also while earlier submissions wait in the
   overflow queue. Submissions then leave in another order than they were made
   (`SubmissionOrder`, both directions); `LateOvertakes` is a run, for either advance.
6. Only the drain respects links. A chain submitted into a ring with too little room is split between
   ring and overflow queue and does not reach the kernel in one batch (`ChainStaysWhole` and, for all
   submissions of a run, `LinkedReachKernelTogether`, both directions); `SplitChain` is a run.
7. The drain's backward walk has no stop of its own: it stays inside the queue exactly when an entry
   among those that fit the ring is not linked (`WalkStaysInside`). One linked submission behind a full
   ring makes it leave (`OpenLinkStrays`). Clients that keep to the limit of eight entries a chain, and
   close every chain before the kernel takes the ring, never do (`NeverStray`).
8. `iel_tp_max` is 0 for alignments that leave no room for the high tag (`MaxTagPositive`,
   `NoRoomForTags`).
9. A heap set up with room for no node never gets any: doubling 0 gives 0 (`src/minheap.c:105`), and
   the first insertion is about to write behind the array (`MinHeap.FirstWithoutRoom`). Extending the
   array gives room exactly to a heap whose capacity was positive (`MinHeap.Ins1`).
10. When the kernel refuses the updated file table, `regfiles` rolls back from one entry too high
    (`src/backends/iou.c:143-146`): the slot in the entry behind those placed is given back too, whoever
    holds it, and without such an entry the code leaves its arrays (`FileTable.RegFiles`). The
    bookkeeping survives exactly when that entry exists and names a slot of the table that nobody holds
    (`RegisterKeeps`); `HeldSlotHandedOut` is a run after which a held slot is handed out again.

Two latent points, harmless in the builds and calls that occur: the low-bits branch of `iel_tp_init`
does not reset the shift used by `iel_tp_max` (`Dispatch.Init`), which repeated calls in one process do
not notice because CPUID answers alike (`Dispatch.InitRepeatedly`); and a build without
`IEL_PF_MMLOWUSER` uses `LA57_TAGH`, which `src/tagptr.c:67` does not define (the round trip is proved for
every width and both extensions).

## Model

| member | source | states |
|---|---|---|
| TagPtr.PortableShiftIsArithmetic | include/iel/config.h:40-46 | the xor, shift, xor fallback is floor division by 2^n mod 2^64 for every signed 64-bit value and n below 64 |
| TagPtr.RoundTrip | include/iel_priv/tp_tagh.tpl.h:14-66 | for every tag width, power-of-two alignment, non-null aligned canonical address and tag below iel_tp_max, zero- or sign-extended, under either shift macro: the tagged word is not 0 and untags to exactly that address and tag |
| TagPtr.RoundTripLow | src/tagptr.c:14-28 | the same for the plain low-bits scheme |
| TagPtr.TagInjective | include/iel/tagptr.h:30-57 | different (address, tag) pairs have different tagged words |
| TagPtr.TagLayout | include/iel_priv/tp_tagh.tpl.h:51-66 | the tagged word is the sum of address bits, low tag field and high tag field, without overlap |
| TagPtr.SignExtend | include/iel_priv/tp_tagh.tpl.h:26-30 | shifting out the tag and shifting back sign-extends the address bits |
| TagPtr.MaxTagPositive | include/iel/tagptr.h:19-27 | iel_tp_max is positive, and equals alignment times 2^width, exactly when the alignment leaves room for the high tag |
| TagPtr.NoRoomForTags | src/tagptr.c:91-94 | for every scheme and every power-of-two alignment without room for the high tag the limit is 0 |
| TagPtr.Dispatch.InitRepeatedly | src/tagptr.c:96-120 | any number of calls with the same answers of CPUID leave tagging, untagging and the limit in agreement, for a scheme that fits that processor |
| TagPtr.ChosenFits | src/tagptr.c:99-119 | for 48 and for 57 address bits every user address is canonical for the scheme chosen; without the leaf or with another width the limit is the alignment |
| TagPtr.ChosenIsWidest | src/tagptr.c:106-113 | with one more high tag bit some user address would not be canonical |
| TagPtr.Dispatch.Init | src/tagptr.c:96-120 | the scheme in force fits the processor, and tagging, untagging and the limit agree exactly when it is a high-bits scheme or none was chosen before |
| TagPtr.Dispatch.TagPointer | src/tagptr.c:86-89 | the word is not null and untags to what went in |
| TagPtr.Dispatch.UntagPointer | src/tagptr.c:81-84 | a tagged word gives back a non-null pointer and a tag below the limit |
| TagPtr.Dispatch.Max | src/tagptr.c:91-94 | the limit for the scheme in force, positive for a power-of-two alignment exactly when it leaves room for the high tag |
| Bits.PowerOfTwoIdiom | include/iel_priv/tp_tagh.tpl.h:16 | al and not (al and al - 1) says that al is a power of two |
| ChunkedQueue.ChunkQueue.Init | include/iel_priv/que.tpl.h:72-88 | a new queue is empty, holds no chunk and has at least MinChunks map entries; or the allocation failed |
| ChunkedQueue.ChunkQueue.Size | include/iel_priv/que.tpl.h:90-94 | the cursor arithmetic gives the number of elements |
| ChunkedQueue.ChunkQueue.Rsv1 | include/iel_priv/que.tpl.h:96-118 | appends one uninitialised element and returns its place, or returns null exactly when an allocation it needs fails, contents unchanged, map possibly grown; ownership stays exact |
| ChunkedQueue.ChunkQueue.Push | include/iel_priv/que.tpl.h:96-118 | rsv1 with the store through its result: the new state and outcome of the value-level queue |
| ChunkedQueue.ChunkQueue.Pop1 | include/iel_priv/que.tpl.h:120-141 | element, return code and state of the value-level queue, stop cursor and reset included; reads and frees only live chunks |
| ChunkedQueue.ChunkQueue.PopTo | include/iel_priv/que.tpl.h:143-190 | elements written, count and state of the value-level queue, for the intended and the literal advance |
| ChunkedQueue.ChunkQueue.Trim | include/iel_priv/que.tpl.h:198-221 | live chunks move to the start of the map, an empty chunk is freed, the map shrinks if the realloc works; contents unchanged |
| ChunkedQueue.ChunkQueue.QTrim | include/iel_priv/que.tpl.h:192-196 | trims when the front chunk index is over 4096 or over an eighth of the map |
| ChunkedQueue.ChunkQueue.Del | include/iel_priv/que.tpl.h:223-230 | every live chunk is freed, each once, and the map |
| ChunkedQueue.ChunkQueue.OwnedExactly | include/iel_priv/que.tpl.h:97-230 | the live chunks are exactly the entries map[chunk_s..chunk_e), and map[chunk_e] iff os_e is not 0, pairwise distinct |
| ChunkedQueue.ChunkQueue.ElementAt | src/backends/iou.c:431-435 | element k lies at chunk and offset (os_s + k) divided by the chunk size |
| ChunkedQueue.ChunkQueue.ViewCursors | include/iel/quedecl.h:15-24 | the cursors are quotient and remainder of two positions; the queue is empty exactly when they are equal, zero or not |
| ChunkedQueue.PopToAdvanced | include/iel_priv/que.tpl.h:148-189 | serving a request chunk by chunk is serving it at once |
| QueueRuns.QueueRefinesFifo | include/iel_priv/que.tpl.h:73-221 | over every run from every valid state, with either advance: the cursors fit the map, and outputs (return codes included), contents and front position are those of a plain FIFO exactly when no bulk removal drops elements, which the intended advance never does |
| QueueRuns.QueueConserves | include/iel_priv/que.tpl.h:96-190 | over every run, with either advance: elements taken followed by elements left are elements at the start followed by elements accepted exactly when no bulk removal drops elements; otherwise they are fewer |
| QueueRuns.StepIsFifo | include/iel_priv/que.tpl.h:96-221 | one operation: output allowed by the FIFO, where the code of a pop is 1 exactly for the last element and for the one before the stop cursor and a push is refused only where a chunk begins; contents and front position afterwards are the FIFO's exactly when the operation keeps what it does not hand out |
| QueueRuns.BulkEqualsSingle | include/iel_priv/que.tpl.h:120-190 | pop_to(n) returns min(n, size) elements, the same ones and the same rest as n times pop1 |
| QueueRuns.LiteralAdvanceConserves | include/iel_priv/que.tpl.h:166-178 | with line 172 as written the right elements are copied, and the others kept exactly when the request empties the queue or ends at a chunk boundary |
| QueueRuns.LiteralAdvanceLoses | include/iel_priv/que.tpl.h:172 | a queue of two on which the literal advance loses an element |
| QueueRuns.MapSpaceBound | include/iel_priv/que.tpl.h:99-221 | with either advance and qtrim after every removal the front cursor stays in the first eighth of the map and the capacity within max(initial, MinChunks, 16/7 of the peak number of live chunks), also when the shrinking realloc fails |
| QueueRuns.QTrimTidies | include/iel_priv/que.tpl.h:192-221 | after qtrim the front cursor is in the first eighth of the map and in the first 4096 entries; if it was before, nothing changes |
| QueueRuns.TrimIsTight | include/iel_priv/que.tpl.h:198-221 | trim keeps the elements, moves the front into the first chunk, and leaves the smallest map that holds them, or the old one when the realloc fails |
| QueueRuns.InitHasRoom | include/iel_priv/que.tpl.h:72-88 | a new queue is empty, with room for the chunks asked for and for MinChunks, and no more than the larger |
| IouRing.RingPush | src/backends/iou.c:229-238 | a submission to a ring with room joins its end and overwrites no live entry, under counter wrap |
| IouRing.SlotsDistinct | src/backends/iou.c:232 | live entries occupy distinct slots |
| IouRing.DrainMoves | src/backends/iou.c:467-497 | a conserving drain from an empty ring puts overflow entry j into slot (tail + j) mod n, the rest stays queued, the remaining count ends at 0 |
| IouRing.DrainCounts | src/backends/iou.c:475-497 | entries written and entries left account for the overflow queue exactly when both removals conserve |
| IouRuns.Conservation | src/backends/iou.c:214-497 | over every run in which no walk leaves the queue the accepted submissions are, as a multiset, those taken by the kernel, in the ring and in the overflow queue, all written, exactly when no drain was lossy, which the intended advance never is; occupancy stays within the ring |
| IouRuns.SubmissionOrder | src/backends/iou.c:224-238 | over every such run that loses nothing, whatever is submitted and however often, submissions leave in the order accepted exactly when none went to the ring while others waited in the overflow queue |
| IouRuns.TaskAccounting | src/backends/iou.c:343-377 | over every run in which no walk leaves the queue, for both queues: callbacks called followed by callbacks queued are those accepted, in order |
| IouRuns.RunTasksIsSnapshot | src/backends/iou.c:353-367 | exeq calls what was queued on entry, each once and in order, whatever the callbacks add, which stays queued in order |
| IouRuns.Lrun1Tasks | src/backends/iou.c:376-540 | one turn whose walk stays inside the queue calls everything queued at its start; of prepque exactly that, so nothing scheduled with ESOON_NEXT during the turn |
| IouTurns.SubmitEffect | src/backends/iou.c:214-264 | when a request is refused and with which error; an accepted one is the newest submission, carries opcode, file, offset, address, length, user data and flags of the request, and joins the ring or the overflow queue |
| IouTurns.RequestReachesKernel | src/backends/iou.c:214-497 | in every run without loss or stray walk the entry the kernel takes for a submission carries the request made |
| IouTurns.SoonEffect | src/backends/iou.c:343-351 | a callback scheduled with ESOON_NEXT joins prepque, without it soonque, and the other queue is untouched; when it is refused and with which error |
| IouTurns.NextTurnWaits | src/backends/iou.c:343-377 | over a turn, what was scheduled with ESOON_NEXT during it is exactly what is in prepque when it returns |
| IouTurns.TurnOutcome | src/backends/iou.c:369-540 | one turn: what is published, what the kernel takes, when it polls, fails, handles completions or is about to leave the queue, and the return value and completion head in each case |
| IouTurns.CompleteHandles | src/backends/iou.c:518-535 | the completion loop handles every completion, once and in order, with one callback for each that has user data |
| IouTurns.SoonBetweenCompletions | src/backends/iou.c:518-535 | when the loop ends exactly what was scheduled by the end of the last completion but one has run, and the rest is queued |
| IouTurns.TurnRunsSoon | src/backends/iou.c:376-540 | the same over a turn, with everything scheduled before the enter call run before the first completion |
| IouTurns.CallbackInOrder | src/backends/iou.c:362-363 | a callback makes all the calls of its script in order |
| IouTurns.CallbacksCounted | src/backends/iou.c:353-535 | over every run the completion head stands behind the completions handled, and there was one callback for each task run and each completion with user data |
| IouRuns.SubmitKeeps | src/backends/iou.c:214-264 | submission keeps the traffic invariant |
| IouRuns.EnterKeeps | src/backends/iou.c:397-415 | entering keeps the traffic invariant and empties the ring when it succeeds |
| IouRuns.DrainKeeps | src/backends/iou.c:420-516 | a drain with a place to cut keeps the traffic invariant, in both variants |
| IouRuns.SoonKeeps | src/backends/iou.c:343-351 | scheduling keeps all invariants and only adds |
| IouRuns.CompleteKeeps | src/backends/iou.c:518-535 | the completion loop keeps all invariants and calls nothing from prepque |
| IouRuns.RunKeeps | src/backends/iou.c:214-540 | every run keeps the traffic and accounting invariants unless a walk leaves the queue |
| IouSteps.RunReaches | src/backends/iou.c:214-540 | every run is a sequence of elementary steps: submissions and schedulings, callbacks, tasks taken, completions, enters, drains with and without a place to cut |
| IouLinks.LastUnlinkedIsLongest | src/backends/iou.c:424-448 | the cut is the longest prefix that fits the ring and ends without a link |
| IouLinks.WalkStaysInside | src/backends/iou.c:436-444 | the walk stays inside the queue exactly when an entry that fits the ring is not linked |
| IouLinks.DrainIsLinkSafe | src/backends/iou.c:424-497 | every linked entry a drain moves has its successor next to it in the same batch |
| IouLinks.DrainProgress | src/backends/iou.c:425-447 | with closed chains of at most eight entries the cut is at least max(1, min(size, n) - 7) |
| IouLinks.DrainLinks | src/backends/iou.c:420-497 | with either advance, for such a client: the drain does not stray, moves the tail by at least that many, and leaves an overflow queue of short closed chains |
| IouLinks.NeverStray | src/backends/iou.c:4 | over every run, with either advance, of a client that keeps to the limit and closes its chains the walk never leaves the queue |
| IouLinks.EveryDrainProgresses | src/backends/iou.c:420-448 | in any later turn of such a run, with either advance, the drain does not stray and moves the tail by at least max(1, min(size, n) - 7) |
| IouDelivery.QuietTurn | src/backends/iou.c:370-540 | a turn of such a client that stays quiet takes at least n - 7 entries out of the overflow queue, or all |
| IouDelivery.EverythingIsDelivered | src/backends/iou.c:370-540 | after any run of such a client, t + 1 quiet turns with t * (n - 7) at least the size of the overflow queue bring everything accepted to the kernel |
| IouChains.BlockStays | src/backends/iou.c:397-497 | no step parts linked submissions that stand side by side |
| IouChains.PairAppears | src/backends/iou.c:214-497 | two submissions come to stand side by side only when the second is accepted |
| IouChains.LinkedReachKernelTogether | src/backends/iou.c:214-497 | over every run without loss or stray walk: every linked submission has its successor right behind it in its batch, in the ring or in the overflow queue, and no batch ends in a linked one, exactly when no submission was parted from its linked predecessor and the kernel never took a ring ending in a linked entry |
| IouBursts.BurstFillsRingFirst | src/backends/iou.c:217-238 | until the kernel takes the ring, the accepted ones of any burst, for every pattern of refusals, fill the ring and then the overflow queue, each in order |
| IouBursts.BurstGranted | src/backends/iou.c:221-227 | a burst with valid flags and memory available is accepted as a whole |
| IouBursts.ChainStaysWhole | src/backends/iou.c:224-497 | a chain submitted at any time of any run without loss or stray walk stands in one piece in one place ever after, and is in the batch of its first entry once the kernel has taken that, exactly when all of it or none of it fitted the ring |
| IouCases.LiteralRunLoses | src/backends/iou.c:489-495 | a run from a new context with the literal advance that loses one of 2n + 1 submissions |
| IouCases.LateOvertakes | src/backends/iou.c:224-238 | a run from every new context, with either advance, in which a submission overtakes an earlier one that still waits |
| IouCases.SplitChain | src/backends/iou.c:224-245 | a run from every new context in which the kernel gets a linked submission without its successor |
| IouCases.OpenLinkStrays | src/backends/iou.c:436-444 | a run from every new context in which the walk is about to leave the overflow queue |
| IouTasks.StopsAtSnapshot | include/iel_priv/que.tpl.h:130-139 | pop1 reports the end exactly at the last element that was queued when the stop cursor was taken, despite additions and the reset to zero |
| IouTasks.ExeqRound | src/backends/iou.c:357-366 | one round of exeq |
| IouContext.IouCtx.constructor | src/backends/iou.c:665-696 | the context starts with an empty ring, counters anywhere, and empty queues |
| IouContext.IouCtx.SubmitToSq | src/backends/iou.c:214-264 | in place it is the value-level submission, of which SubmitEffect speaks; the result is the user data, or NULL |
| IouContext.IouCtx.Esoon | src/backends/iou.c:343-351 | in place it is the value-level scheduling, of which SoonEffect speaks; the result is what was handed in, or NULL |
| IouContext.IouCtx.RunQueue | src/backends/iou.c:353-367 | exeq by stop cursor calls exactly the snapshot |
| IouContext.IouCtx.EnterKernel | src/backends/iou.c:397-415 | both private counters are stored; what the kernel takes is what it reads through the index array from its head up to the tail stored, and its head moves there |
| IouContext.IouCtx.KernelReadsRing | src/backends/iou.c:235 | with the tail published, what the kernel reads through the index array is the ring, in order |
| IouContext.IouCtx.Walk | src/backends/iou.c:425-447 | the backward walk across chunks computes the cut, or is about to leave the queue exactly when there is none |
| IouContext.IouCtx.FillIndex | src/backends/iou.c:467-474 | the index loop covers exactly the batch, under counter wrap, and ends |
| IouContext.IouCtx.MoveOverflow | src/backends/iou.c:467-497 | index loop and two removals have the effect of the value-level drain |
| IouContext.IouCtx.DrainOverflow | src/backends/iou.c:422-516 | walk and move together, for every non-empty overflow queue |
| IouContext.IouCtx.HandleAll | src/backends/iou.c:518-535 | the completion loop in place is the value-level one, of which CompleteHandles and SoonBetweenCompletions speak |
| IouContext.IouCtx.Lrun1 | src/backends/iou.c:369-540 | state and result of one turn of the loop, up to where the walk is about to leave the queue if it does |
| IouContext.IouCtx.PerformCalls | src/backends/iou.c:214-540 | any sequence of calls in place is the run of the value-level context, so that every result about runs holds in place |
| SlotSpec.BlsrClears | include/iel_priv/bitmap.h:18-24 | n and n - 1 clears the lowest set bit and no other |
| SlotSpec.LowestBitIsLowest | include/iel_priv/bitmap.h:19 | the counted index is that of the lowest set bit |
| SlotSpec.SetRestores | include/iel_priv/bitmap.h:43-50 | setting the bit gives the word back |
| SlotSpec.SetBitFree | include/iel_priv/bitmap.h:43-50 | setting a slot's bit frees that slot and no other |
| SlotSpec.HandedTaken | src/backends/iou.c:121-135 | a batch makes exactly the slots it hands out no longer free |
| SlotSpec.HandedDistinct | include/iel_priv/bitmap.h:33-35 | the slots of a batch are distinct |
| SlotSpec.HandedInTable | src/backends/iou.c:131-133 | they were free, in the table, and without a file |
| SlotRuns.RegisterOutcome | src/backends/iou.c:118-150 | with n non-zero words n distinct free slots are handed out and hold the files; success with fewer is reported exactly when the last word is non-zero; otherwise nothing changes |
| SlotRuns.OneSlotToAWord | src/backends/iou.c:135 | a new table on which two files are reported registered and one is |
| SlotRuns.SlotPastTheEnd | src/backends/iou.c:746 | a new table of one slot that hands out slot 1 |
| SlotRuns.NewTableValid | src/backends/iou.c:739-747 | the new bitmap describes only slots of the table exactly when the size is a multiple of 64 |
| SlotRuns.NeverHandedTwice | src/backends/iou.c:121-135 | a registration hands out no slot somebody holds |
| SlotRuns.RegisterKeeps | src/backends/iou.c:107-160 | a registration keeps the exact bookkeeping exactly when the update is accepted, or nothing was placed, or the entry behind those placed names a slot of the table nobody holds |
| SlotRuns.StrayReleaseKeeps | src/backends/iou.c:152-158 | giving back a slot the registration did not take keeps the bookkeeping exactly when nobody holds it |
| SlotRuns.HeldSlotHandedOut | src/backends/iou.c:143-146 | a run from a new table after which a held slot is handed out again |
| SlotRuns.SlotsNeverShared | src/backends/iou.c:107-195 | over every run of registrations and deregistrations, accepted by the kernel or refused harmlessly, the free slots are exactly those nobody holds, and the next registration hands out only such |
| SlotRuns.RunKeepsExact | src/backends/iou.c:107-195 | every such run keeps the exact bookkeeping: free slots are those nobody holds, and a held slot has the file it was handed out for |
| SlotRuns.DeregisterOutcome | src/backends/iou.c:178-195 | deregistration clears the slot's entry and no other, and frees the slot and no other, or none when the kernel refuses |
| FileTables.BitScanClear | include/iel_priv/bitmap.h:18-24 | index of the lowest set bit and the word without it |
| FileTables.ScanClear | include/iel_priv/bitmap.h:25-42 | finds the first non-zero word, clears its lowest bit and moves past that word |
| FileTables.FileTable.constructor | src/backends/iou.c:734-747 | no slot taken, every bit set |
| FileTables.FileTable.PlaceAll | src/backends/iou.c:121-135 | the batch loop stops with every file placed, the last word used, or the slots exhausted |
| FileTables.FileTable.RegFiles | src/backends/iou.c:107-160 | state, outcome and written entries of a registration, whether the kernel accepts the update or not; on exhaustion bitmap and table are exactly as before; in and out may be one array |
| FileTables.FileTable.Deregister | src/backends/iou.c:178-195 | the slot is free and its entry -1, or, when the kernel refuses, the entry is -1 and the slot stays taken |
| HeapSpec.SiftUpRestores | src/minheap.c:56-68 | sifting up from the only bad edge restores heap order |
| HeapSpec.StrictSiftDownRestores | src/minheap.c:77-99 | with the strict test sift-down restores heap order |
| HeapSpec.LiteralSiftDown | src/minheap.c:77-99 | the literal sift-down leaves every edge ordered except possibly the one above the moved node |
| HeapRuns.LiteralPopKeeps | src/minheap.c:122-132 | removal as written leaves a heap exactly when the path of smaller children, with the last node in the place of the root, passes a node with the last node's key, is the root alone, or ends in a node with no larger key |
| HeapRuns.SiftUpRepairs | src/minheap.c:56-132 | sifting up from the resting place repairs the literal removal |
| HeapRuns.LiteralPopMisorders | src/minheap.c:91 | keys 1, 5, 2 leave 5 above 2 |
| HeapRuns.HeapConserves | src/minheap.c:101-132 | over every run, under either test: nodes removed and left are nodes at the start and inserted |
| HeapRuns.StrictRunKeeps | src/minheap.c:101-132 | with the strict test every run keeps heap order and the root has a smallest key |
| HeapRuns.DrainedSorted | src/minheap.c:122-132 | with the strict test emptying the heap gives exactly its nodes in order of their keys |
| MinHeaps.MinHeap.Sup | src/minheap.c:56-68 | the loop in place is sift-up |
| MinHeaps.MinHeap.Sdn | src/minheap.c:77-99 | the loop in place is sift-down, under either test |
| MinHeaps.MinHeap.Ins1 | src/minheap.c:101-118 | insertion; -1 and no change when the realloc fails; about to write behind the array exactly when the capacity was 0 and the realloc works |
| MinHeaps.MinHeap.FirstWithoutRoom | src/minheap.c:13-20 | a new heap whose first insertion is about to write behind the array |
| MinHeaps.MinHeap.PopMin | src/minheap.c:122-132 | the root and the heap without it, or -1 |

## Left out

- IouContext.IouCtx.Lrun1: stops where the walk is about to read below the front of the queue; what the code does with the memory it finds there is not modelled.
- IouContext.IouCtx.EnterKernel: the kernel takes all published entries or none; a partial take before a drain is not modelled.
- FileTables.FileTable.RegFiles: stops where the rollback is about to use an entry that is not there or names no slot of the table; what the code does with the memory it finds there is not modelled.
- MinHeaps.MinHeap.Ins1: indices do not wrap at 32 bits (heaps below 2^31 - 1 nodes).
- Memory of the chunked queue is a map from addresses to sequences and the pointer map a sequence, not Dafny arrays; element size and alignment do not appear.
- System calls, ring mapping and teardown, signal handling, and the kernel's processing of requests.
- Memory orderings of the atomics; loads and stores are sequential.
- The wrappers around submission, the timer's unit conversion, the vtable, errno storage beyond the last error set.
- The opcode and flag dispatch of `ielb_iou_xreg` around registration and deregistration, and closing files.
- Debug printing, and the cells of the completion ring, whose entries reach the model as a list.
- The disabled AArch64 code and the branch of the tagging templates that shifts the whole pointer.
