# Verified model of the miner's core

A Dafny model of the parts of this proof-of-capacity miner on which its results depend, with proofs about them:

- **Ring buffer** (`Ring`, `RingBuffer`, `RingSearch`, `TaskQueue`, `BufferQueue`): the wrapping byte ring of `rbuff.c`
  as an object over an array, refined to a bounded queue over every run of calls; its span pointers, `rbuff_move`, the
  search whose index moves backwards, the queue of fixed records, and the queue of recycled buffers.
- **Ring without a lock** (`RingConcurrent`): one producer and one consumer, every call cut into its snapshot of the other
  side's pointer, single-byte copies and one pointer update, in any interleaving.
- **Shabal-256** (`Shabal`, `ShabalInverse`, `ShabalStream`, `ShabalFast`, `ShabalSimd`, `ShabalMemory`): the permutation
  and its inverse, and the code's three ways of finalising a hash, proved equal: the streaming context, the unrolled
  96-byte path, and the SIMD path for any number of lanes.
- **Shabal-256 against fixed points** (`ShabalReference`, `PrefixNumbers`, `ShabalPrefix`, `ShabalInit`): the definitions
  against the lists of the C macros and against their operations bit by bit; a known answer, computed in the proof, that
  ties every operation and table to each other: the two prefix blocks lead from the zero state to the precomputed one; and
  the SIMD contexts, which hash that prefix at the start, therefore begin where `sph_shabal256_init` does.
- **Search kernels** (`DeadlineSearch`, `ScanKernels`): the scalar loop and the lane-parallel loops that must agree with it.
- **Scan scheduler** (`PlotScan`, `PlotRead`, `JobExchange`, `JobHazards`, `JobRuns`): plot layout and chunking, the two reads and the merge of
  `th_read`, and the exchange of job records between reader and hasher.
- **Reference deadline** (`Deadline`, `PlotDeadline`): `calc_dl`, and the end-to-end statement `PlotDeadline.MineFile`:
  layout, reading, merging, hashing and searching one plot file together find exactly the least deadline `calc_dl`
  assigns to the plot's nonces, and report nothing but nonces of the plot with `calc_dl`'s values.
- **Coin switching** (`CoinSwitch`): which pushed blocks interrupt the running one, over every run.
- **Base58** (`Base58`, `Digits`): encoder and decoder.

`Words`, `Arith` and `Options` hold machine words, a few facts about products and quotients, and the option type.
The source updates objects and buffers in place, so most of the model is classes and methods over arrays; each method is
tied to a function on values, about which the properties are proved.

Where the code and its comments or obvious intent differ, the model follows the code:

- `rbuff_mem_pos` stops for good after a failed partial match of two or more bytes that straddles the two spans. The
  exact condition is `RingSearch.GivesUp`; `RingSearch.WrappedCanMiss` gives an input.
- The exchange of job records is not safe in every interleaving. `JobExchange.AllSlotsKeptIff` gives the exact condition,
  over every run, for all NCACHE records to be kept: no put of a record is clipped, no record left over from an earlier
  turn is put into an `idle_list` with room, and no `rbuff_move` copies from the second span after a cut of the first or
  stops inside a record. `JobHazards` says when each of these can happen: `LosesWhen` (the hasher's put, while the reader
  is between put and erase), `DropsWhen` (the reader's put, while an `rbuff_move` has copied and not yet erased),
  `AddsWhen` (the run flag set again between the hasher's two looks at it), `CutWhen` with `TearsWhen`, and `MisreadWhen`
  (a wrong free count inside `rbuff_move`). `JobRuns` has a run from the start that loses a record, one that adds one, one
  that drops one and one that tears one. `JobHazards.CallsOneByOne` proves that all records are kept when the calls do
  not interleave.
- `rbuff_freecount` and `rbuff_datacount` read a pointer twice; `Ring.FreeReadTwice` and `Ring.DataReadTwice` say exactly
  when the answer is wrong.
- `rbuff_get_write_ptrs` tests lengths as signed integers and drops a stretch of 2^31 free bytes or more when the read
  position lies before the write position; `RingBuffer.RBuff.WritePtrs` is an equivalence.
- A lane-parallel kernel also searches the scoops behind a chunk that does not fill whole groups;
  `ScanKernels.LanesRefineScalar` says exactly when its target is then still the scalar kernel's. It reads behind the
  chunk if and only if the length is no multiple of the lane count (`ScanKernels.GroupsReachPast`), and the buffer the
  scheduler allocates need not be longer than the chunk.
- A plot whose nonces are not whole staggers is over-read, unless whole chunks of one longer stagger cover it exactly;
  `PlotScan.ReadsExactlyThePlot` is an equivalence, and `PlotScan.OverRead` a plot that passes every test of the scan.
- A damaged plot of one stagger is scanned, not skipped, when the scoop number equals the number of whole scoops in the
  file; `PlotScan.DamagedStagger` is an equivalence, and `PlotScan.PastTheEnd` such a plot.
- The chunk size is zero, and the scan would not advance, when the configured cache is below one sector;
  `PlotScan.ChunkSizePositive` is an equivalence.
- Base58 does not keep a run of leading zero bytes: only one survives. `Base58.RoundTripIff` is an equivalence.

## Model

| member | source | states |
|---|---|---|
| Ring.CountsAddUp | miner/rbuff.h:35-37 | at every reachable pair of positions, both of which may rest on tp as well as hp, datacount + freecount = maxcount and neither is negative |
| Ring.PutAppends | miner/rbuff.c:64-113 | storing appends the clipped prefix to the content and takes that much room, also across the wrap |
| Ring.SkipExposes | miner/rbuff.c:64-113 | moving the write position exposes the cells behind the content, in order, and nothing else |
| Ring.DropRemoves | miner/rbuff.c:115-171 | getting or erasing removes the clipped prefix of the content |
| Ring.FreeReadTwice | miner/rbuff.h:36 | the free count a producer reads while rp moves is the present one, unless rp wraps around between the two reads; then and only then it is negative although there is room |
| Ring.DataReadTwice | miner/rbuff.h:37 | the data count a consumer reads while wp moves is the present one unless it is negative, and zero exactly when the ring is empty |
| Ring.AlignedKept | miner/rbuff.c:59-171 | in a ring used from the start the write position is the read position moved on by the content |
| Ring.StepRefines | miner/rbuff.c:59-171 | each call acts on the ring as on a bounded queue of tp-hp-1 bytes and hands back the same bytes |
| Ring.RunRefines | miner/rbuff.c:59-171 | the same for every sequence of put, get, peek, erase and reset |
| Ring.FillThenSkip | miner/rbuff.c:173-264 | filling the free cells in order by any means and then stepping over them is rbuff_put |
| RingBuffer.PutThroughSpans | miner/rbuff.c:173-264 | writing bytes in order into the spans of rbuff_get_write_ptrs and then stepping by their number has exactly the effect of rbuff_put |
| RingBuffer.RBuff.constructor | miner/rbuff.c:19-48 | a new ring is empty, with one spare cell |
| RingBuffer.RBuff.Put | miner/rbuff.c:64-113 | stores the clipped bytes and moves wp, changing no other cell; without data only wp moves; returns the clipped size |
| RingBuffer.RBuff.StoreWrapped | miner/rbuff.c:81-99 | the branch around the end: the second clip never changes the size |
| RingBuffer.RBuff.Get | miner/rbuff.c:115-171 | hands out the oldest bytes, clipped to what is there, and drops them unless peeking |
| RingBuffer.RBuff.WritePtrs | miner/rbuff.c:173-264 | the spans name exactly the free cells in order, whichever of hp and tp the positions rest on, if and only if no stretch of 2^31 free bytes or more is met with rp before wp; then the sums the function asserts hold |
| RingBuffer.RBuff.ReadPtrs | miner/rbuff.c:266-324 | the spans name exactly the cells of the content in order; a null pointer goes with length zero |
| RingBuffer.RBuff.SpansHoldContent | miner/rbuff.c:266-324 | the bytes of the two read spans joined are the content |
| RingBuffer.RBuff.PeekAfterPos | miner/rbuff.c:507-520 | returns the content from pos on, clipped, and leaves the ring as it was |
| RingBuffer.Joined | miner/rbuff.c:521-551 | what the two span copies of rbuff_move put is one prefix of the source's content, of length min(size, data, room) |
| RingBuffer.Move | miner/rbuff.c:521-551 | appends exactly the first min(size, data in src, room in dest) bytes to dest and removes them from src |
| RingSearch.SearchFirst | miner/rbuff.c:474-487 | the loop over the first span ends although its index moves back, and stands at the first occurrence or at the longest partial match still open |
| RingSearch.SearchSecond | miner/rbuff.c:489-504 | the loop over the second span ends although its index wraps below zero; it finds the first occurrence, or none, or gives up |
| RingSearch.MemPos | miner/rbuff.c:461-505 | a result is the first occurrence, also across the wrap, as a signed 32-bit number; -1 exactly when there is none or the search gives up before it |
| RingSearch.ContiguousIsComplete | miner/rbuff.c:461-505 | on content in one span, -1 exactly when the data does not occur |
| RingSearch.WrappedCanMiss | miner/rbuff.c:489-497 | searching aab in aa, ab gives up although it occurs |
| RingConcurrent.WritesOnlyFreeCells | miner/rbuff.c:64-113 | in every state the producer's next byte goes to a free cell, whatever its snapshot of rp |
| RingConcurrent.ReadsOnlyContent | miner/rbuff.c:115-171 | in every state the consumer's next byte is the next byte of the content and no cell the producer may write |
| RingConcurrent.SecondClipIdle | miner/rbuff.c:87-91 | with a stale snapshot and a second read of rp, the second clip cuts nothing |
| RingConcurrent.PublishPutAppends | miner/rbuff.c:64-113 | the single update of wp appends exactly the bytes copied |
| RingConcurrent.PublishGetDrops | miner/rbuff.c:115-171 | the single update of rp drops exactly the bytes handed out |
| RingConcurrent.NeverStuck | miner/rbuff.c:64-171 | every step that is due can be taken: no copy is out of bounds |
| RingConcurrent.EveryInterleavingSafe | miner/rbuff.c:64-171 | over every interleaving, in the middle of copies too, bytes consumed followed by bytes in the ring are the bytes published, and what the consumer has copied is what comes next |
| TaskQueue.TaskQ.Push | miner/rbuff.c:590-609 | appends one whole record beginning with the cut task, or refuses exactly when the queue is full |
| TaskQueue.TaskQ.Pop | miner/rbuff.c:612-622 | returns the oldest record whole, or -1 exactly when there is none |
| TaskQueue.FlattenAppend | miner/rbuff.c:590-609 | appending a record's bytes to the ring is appending the record |
| BufferQueue.BQueue.ProducerGet | miner/rbuff.c:658-677 | recycles a free buffer or allocates below the limit, unmarked and large enough, but for sizes of 2^32 and more, which rbuff_init truncates; the producer holds it and all it held before, and no other buffer changes; none exactly when nothing is free and the limit is reached |
| BufferQueue.BQueue.ProducerPut | miner/rbuff.h:155 | hands the buffer to the consumer and nothing else changes; it is never dropped |
| BufferQueue.BQueue.Regrow | miner/rbuff.c:671-674 | a buffer that is too small is replaced in the producer's hands by one of the size wanted, truncated to 32 bits, not in use before, and no other buffer changes |
| BufferQueue.BQueue.ProducerFree | miner/rbuff.c:679-683 | the buffer goes through the busy queue marked, never dropped |
| BufferQueue.BQueue.ConsumerFree | miner/rbuff.c:685-691 | the buffer returns to the free queue unmarked, never dropped |
| BufferQueue.BQueue.ConsumerGet | miner/rbuff.c:693-707 | the loop ends; it recycles exactly the marked buffers at the head and delivers the first unmarked one |
| BufferQueue.OnePlaceEach | miner/rbuff.c:627-707 | under the invariant every buffer is in exactly one of free queue, busy queue, producer and consumer |
| BufferQueue.PutOk | miner/rbuff.c:658-707 | handing over keeps the invariant, with alloced_bufs <= max_bufs and produced = delivered followed by waiting, the buffer becomes the last one waiting to be delivered, and the busy queue has room |
| BufferQueue.PutMarkedOk | miner/rbuff.c:679-683 | giving back unused keeps the invariant, the buffer is queued and marked but those waiting to be delivered stay the same, and the busy queue has room |
| BufferQueue.RecycleOk | miner/rbuff.c:685-691 | recycling keeps the invariant and the free queue has room |
| BufferQueue.TakeOk | miner/rbuff.c:693-707 | taking the head of the busy queue keeps the invariant: delivery is in the order produced |
| BufferQueue.SkipOne | miner/rbuff.c:697-704 | one turn of the consumer's loop recycles one more marked buffer |
| BufferQueue.Low32Repeats | miner/rbuff.c:19 | sizes 2^32 apart are the same to rbuff_init |
| ShabalInverse.EltAInverse | miner/sph_shabal.c:259-265 | the A half of PERM_ELT is undone with the inverse of 3 modulo 2^32 |
| ShabalInverse.PermEltsInverse | miner/sph_shabal.c:267-322 | the 48 PERM_ELT steps are undone by 48 inverse steps backwards |
| ShabalInverse.ApplyPBijective | miner/sph_shabal.c:324-380 | APPLY_P is a bijection on (A, B) for every message block and every C: the inverse undoes it on both sides |
| ShabalInverse.BlockReversible | miner/sph_shabal.c:463-474 | a whole block step, with W, is reversible given the block |
| ShabalReference.AndNotIs | miner/sph_shabal.c:263 | the and-not of a step has no bit of its first operand, and with the and of the two it makes up the second |
| ShabalReference.XorIs | miner/sph_shabal.c:259-265 | exclusive or has the bits of exactly one of its operands |
| ShabalReference.OrIs | miner/sph_shabal.c:259-265 | or is and of the complements, complemented |
| ShabalReference.NotIs | miner/sph_shabal.c:264 | the complement shares no bit with its operand and fills the word with it |
| ShabalReference.Rot1Is | miner/sph_shabal.c:264 | the rotation by 1 doubles, and the bit carried out comes in below |
| ShabalReference.Rot15Is | miner/sph_shabal.c:261 | the rotation by 15 multiplies by 2^15, and the bits carried out come in below |
| ShabalReference.Rot17Is | miner/sph_shabal.c:325-340 | the rotation by 17 multiplies by 2^17, and the bits carried out come in below |
| ShabalReference.SumsAndMultiples | miner/sph_shabal.c:260-263 | addition counts up one by one, and the multiples by 3 and 5 are repeated sums |
| ShabalReference.Dec32Is | miner/sph_shabal.c:172-189 | the four bytes of a word weigh 1, 256, 65536 and 16777216 |
| ShabalReference.EltAIs | miner/sph_shabal.c:259-263 | the new A word of PERM_ELT, with m, the and-not and b1 taken off again, is the triple of the old one xored with five times the rotated neighbour and with c |
| ShabalReference.EltBIs | miner/sph_shabal.c:264 | the new B word is the complement of the rotated old one xored with the new A word |
| ShabalReference.PermEltIs | miner/sph_shabal.c:259-322 | step j applies PERM_ELT to the words of A, B, C and M that its line names |
| ShabalReference.PermStep0 | miner/sph_shabal.c:267-284 | the words named in the lines of PERM_STEP_0 |
| ShabalReference.PermStep1 | miner/sph_shabal.c:286-303 | the words named in the lines of PERM_STEP_1 |
| ShabalReference.PermStep2 | miner/sph_shabal.c:305-322 | the words named in the lines of PERM_STEP_2 |
| ShabalReference.TwoRegisters | miner/sph_shabal.c:267-322 | the 48 steps are two shift registers: each step appends one word to A and one to B, computed from words a fixed distance back, and the last 12 and 16 are the result |
| ShabalReference.AddEltsIs | miner/sph_shabal.c:344-379 | the 36 additions add three words of C, eleven, fifteen and three places on, to every word of A |
| ShabalReference.XorWIs | miner/sph_shabal.c:229-232 | the low counter word goes into A[0] and the high one into A[1] |
| ShabalReference.TickIs | miner/sph_shabal.c:382-385 | the low counter word counts, and the high one counts exactly when the low one was full |
| ShabalReference.OutputIs | miner/sph_shabal.c:521-533 | the digest is B[8] to B[15] in order, lowest bytes first |
| ShabalReference.PadByteIs | miner/sph_shabal.c:499-500 | the padding byte is the first n bits given, a one bit, and zeros |
| ShabalPrefix.InitialState | miner/sph_shabal.c:388-430 | known answer: the block step takes the zero state with counter -1, over the two blocks of the words 256 to 287, to exactly the tables of the precomputed state with counter 1 |
| ShabalStream.AbsorbAppend | miner/sph_shabal.c:433-481 | absorbing two strings one after the other is absorbing them joined |
| ShabalStream.StreamingDigest | miner/sph_shabal.c:433-544 | however a message is cut into pieces, the result is the digest of the whole |
| ShabalStream.SwapRoundIsTurnMix | miner/sph_shabal.c:507-511 | a swap round equals subtracting the block, swapping, and adding it again |
| ShabalStream.Context.Update | miner/sph_shabal.c:433-481 | folds exactly the pending bytes followed by the data, with ptr < 64, whatever stale bytes buf holds |
| ShabalStream.Context.CloseBits | miner/sph_shabal.c:483-536 | the digest of the padded message; the chaining state is not changed |
| ShabalFast.FirstBlockDecodes | miner/sph_shabal.c:573-589 | the words the fast path loads are the first block of signature and scoop decoded |
| ShabalFast.LastBlockDecodes | miner/sph_shabal.c:598-608 | the second set of words is the padded last block decoded |
| ShabalFast.TwoBlocks | miner/sph_shabal.c:552-617 | a digest of signature and scoop is one block and one final block |
| ShabalFast.OpenCloseFast | miner/sph_shabal.c:552-617 | the result is the first eight bytes of the digest of signature and scoop |
| ShabalSimd.PPLane | miner/mshabal_128_sse2.c:329-345 | in each lane the vector step with shifts, adds and xors with ones is the scalar PERM_ELT |
| ShabalSimd.PPStepLane | miner/mshabal_128_sse2.c:329-428 | one vector step acts on every lane as the scalar step on that lane: lanes never mix |
| ShabalSimd.Permute | miner/mshabal_128_sse2.c:326-429 | the vector permutation is APPLY_P in every lane |
| ShabalSimd.SwapAndSub | miner/mshabal_128_sse2.c:431-454 | swaps B and C and subtracts the block, in every lane |
| ShabalSimd.UpDown | miner/mshabal_128_sse2.c:575-577 | incrementing and then decrementing the counter restores it, at carry too |
| ShabalSimd.AfterRoundsNext | miner/mshabal_128_sse2.c:461-578 | subtracting the last block at the end of a round and adding it in the next cancels in the way the scalar final rounds do |
| ShabalSimd.FiveRounds | miner/mshabal_128_sse2.c:318-578 | after one and four rounds every lane holds, swapped, the scalar final state for its own two blocks |
| ShabalMemory.FastContext.OpenCloseRegisters | miner/mshabal_128_sse2.c:301-599 | every lane's result is the two words of the scalar hash of its blocks; the counter is back at 1 |
| ShabalMemory.FastContext.OpenCloseStored | miner/mshabal_128.c:647-666 | the same when the result is taken from the stored state array |
| ShabalMemory.FastContext.FromRegs | miner/mshabal_128_sse2.c:211-216 | vectors stored interleaved are loaded back as they were |
| ShabalInit.FillBuffer | miner/mshabal_128_sse2.c:231-240 | the loop writes sixteen words that count on, two bytes each |
| ShabalInit.PrefixDecodes | miner/mshabal_128_sse2.c:231-252 | the bytes so written decode to the words 256 to 271, and 272 to 287 |
| ShabalInit.Compress | miner/mshabal_128_sse2.c:43-218 | compressing one block is the scalar block step in every lane, with the counter stepped |
| ShabalInit.InitContext | miner/mshabal_128_sse2.c:222-256 | the SIMD context, initialised by hashing the prefix, holds in every lane, for any number of lanes, the state sph_shabal256_init copies from its tables |
| DeadlineSearch.ScanReports | miner/shabal.c:28-44 | the scalar search reports strictly decreasing deadlines of genuine (nonce, hash) pairs |
| DeadlineSearch.ScanTarget | miner/shabal.c:28-44 | the scalar search ends with the least of the initial target and every deadline |
| DeadlineSearch.GroupScanReports | miner/mshabal_128_sse2.c:638-710 | the lane-parallel search reports strictly decreasing deadlines of genuine pairs |
| DeadlineSearch.GroupScanRefines | miner/mshabal_128_sse2.c:638-710 | it ends with the scalar search's target, makes no more reports, and reports no deadline the scalar search does not |
| DeadlineSearch.WrapIs | miner/shabal.c:39 | a reported nonce is the sum taken modulo 2^64: below 2^64, unchanged if it fits, and the same 2^64 further on |
| ScanKernels.LaneResultIsHash | miner/mshabal_128_sse2.c:580-594 | a lane's two words read as one number are the first eight digest bytes, as the scalar search reads them |
| ScanKernels.HashIs | miner/shabal.c:34-38 | the number compared has the second word of the digest as its high half and the first as its low half |
| ScanKernels.HashArg.ScanScalar | miner/shabal.c:20-45 | the loop is the search over the hashes of the cache's scoops |
| ScanKernels.HashArg.LoadScoops | miner/mshabal_128_sse2.c:646-656 | the shuffling puts scoop v + l, and nothing else, into lane l |
| ScanKernels.HashArg.HashGroup | miner/mshabal_256.c:793-820 | the kernel's results for a group are the hashes of its scoops, in order |
| ScanKernels.HashArg.ScanLanes | miner/mshabal_512.c:927-1096 | the loop is the grouped search over the same hashes, for any number of lanes |
| ScanKernels.Smallest | miner/mshabal_128_sse2.c:661-680 | the chain of comparisons finds the first smallest result |
| DeadlineSearch.GroupsPastEnd | miner/mshabal_512.c:927-1096 | when the groups reach past the chunk, the grouped search has the scalar target if and only if no hash behind the chunk beats it |
| ScanKernels.LanesRefineScalar | miner/mshabal_256.c:793-899 | for every chunk length and lane count: the lane-parallel kernel ends with the scalar kernel's target if and only if no scoop it reads behind the chunk beats it; on whole groups it always does, with no more reports |
| ScanKernels.GroupsReachPast | miner/mshabal_512.c:927-1096 | the kernel reads behind the chunk if and only if the length is no multiple of the lane count |
| PlotScan.ChunkSizePositive | miner/scheduler.c:479-501 | the rounded chunk size is positive exactly when the chosen cache holds a sector |
| PlotScan.ChunkSizeIs | miner/scheduler.c:479-501 | the chunk size is the largest on the sector grid within the smaller of cache and stagger for a plot of one stagger, the stagger for others, and the first cache for BFS plots; the second cache is the one used for plots to convert |
| PlotScan.SectorGrid | miner/scheduler.c:457-477 | with sectors of g scoops a plot passes the tests if and only if its stagger is a positive multiple of g and it has g nonces |
| PlotScan.LayoutSteps | miner/scheduler.c:542-543 | the plot begins with slot (0, 0); nonces of a stagger are 64 bytes apart, scoops 64 bytes for every nonce of the stagger, staggers 4096 scoops |
| PlotScan.SlotsDisjoint | miner/scheduler.c:542-543 | slots of different (index, scoop) pairs do not overlap |
| PlotScan.SlotInFile | miner/scheduler.c:542-543 | a plot of whole staggers holds all its slots |
| PlotScan.MakeChunk | miner/scheduler.c:542-619 | each chunk is at its slots' offsets, inside one stagger, whole sectors long, and labelled with its first nonce |
| PlotScan.ScanStagger | miner/scheduler.c:545-627 | the inner loop covers one stagger in order although th_read shortens its step |
| PlotScan.ScanFile | miner/scheduler.c:538-628 | an uninterrupted scan reads the indices of every stagger once, in order, in right chunks no longer than the chunk size |
| PlotScan.ScanPlot | miner/scheduler.c:427-628 | a file is skipped exactly when the test for damage or the tests for the sector grid say so; else it is scanned as above, or, exactly when the chosen cache is below a sector, the scan steps by zero and goes no further. Of an undamaged plot of whole staggers, when the scan advances, exactly the indices from 0 below its nonces are read, in order; of a cut one those below what it is cut to |
| PlotScan.StaggerHoldsScoop | miner/scheduler.c:434-438 | the slots of a scoop in a plot of one stagger lie in the file if and only if the last of them does |
| PlotScan.DamagedStagger | miner/scheduler.c:428-438 | a plot of one stagger shorter than named is skipped if and only if the scoop number is above the number of whole scoops in the file, and else scanned for all its nonces; but it holds the scoop, and its mirror, if and only if the number is below it |
| PlotScan.PastTheEnd | miner/scheduler.c:434-438 | a plot that is not skipped although the scoop lies wholly behind its end |
| PlotScan.CutPlotIsWhole | miner/scheduler.c:428-438 | any other plot, unless of one stagger, is cut to whole staggers that lie within the file, and not one fewer than the file has |
| PlotScan.UndamagedNonces | miner/scheduler.c:428 | all nonces of a plot are scanned when the file has room for them and not for one more |
| PlotScan.ReadsExactlyThePlot | miner/scheduler.c:538-628 | every index below nonces is read exactly once and no other if and only if the nonces are whole staggers, or whole chunks of one longer stagger |
| PlotScan.OverRead | miner/scheduler.c:428-477 | a plot that passes every test and of which 32 indices are read instead of 24 |
| PlotRead.ReadRegion | miner/scheduler.c:699-707 | the loop ends; it reports failure exactly when a read failed, and otherwise has read every position once and in order and filled the buffer with the file's bytes |
| PlotRead.Merge | miner/scheduler.c:736-740 | exactly the second half of every 64-byte entry is replaced |
| PlotRead.ThRead | miner/scheduler.c:646-741 | with the labels and backward jumps as a loop: it ends, and unless a seek or a read failed, for both values of flip every file position needed is read exactly once, in alternating order, and the cache holds each scoop, or its first half followed by the mirror scoop's second half when the formats differ |
| JobExchange.PutWhole | miner/scheduler.c:625 | a record put into a ring of whole records goes in whole, or, exactly when the ring holds NCACHE records, not at all |
| JobExchange.FlatInjective | miner/scheduler.c:765-779 | the records in a ring can be told from its bytes |
| JobExchange.HandOverOk | miner/scheduler.c:625 | the reader's put keeps both rings whole records; the record is missing exactly when job_list is full |
| JobExchange.EraseOk | miner/scheduler.c:626 | the reader's erase removes exactly the record it handed over, also during an rbuff_move |
| JobExchange.TakeJobOk | miner/scheduler.c:765-768 | the hasher takes one whole record, the oldest, or with job_list empty keeps its local one |
| JobExchange.ReturnJobOk | miner/scheduler.c:779 | the hasher's put adds its local record exactly when idle_list is not full |
| JobExchange.Publish1Ok | miner/rbuff.c:528-535 | the first put of rbuff_move copies whole records and a piece of the next |
| JobExchange.Publish2Ok | miner/rbuff.c:537-544 | unless it tears, the second put completes the piece and copies further whole records |
| JobExchange.FinishOk | miner/rbuff.c:546-548 | the erase at the end of rbuff_move removes exactly the records copied |
| JobExchange.TornIsNotKept | miner/rbuff.c:528-548 | a second put after a first that was cut leaves a piece of a record in a ring, or one slot in place of another |
| JobExchange.EveryRunHoldsRecords | miner/scheduler.c:545-784 | in every reachable state, with every look and ring call a step of its own and rbuff_move in its parts, both rings hold whole records, but for one being copied, as long as no rbuff_move has torn one |
| JobExchange.NextKeeps | miner/scheduler.c:545-784 | from a state with all slots, a step keeps them all exactly when it is none of the four bad ones |
| JobExchange.AllSlotsKeptIff | miner/scheduler.c:545-784 | over every run all NCACHE slots are kept, each once and in whole records, if and only if no put of a record is clipped, no stale record is put where there is room, and no rbuff_move copies from the second span after a cut of the first or stops inside a record |
| JobHazards.RoomIs | miner/scheduler.c:545-784 | with all slots kept idle_list has room for exactly what is queued and not yet copied, and for the record in hand, less the one already handed over |
| JobHazards.LosesWhen | miner/scheduler.c:625-626 | the hasher's put is clipped in exactly one situation: the reader is between put and erase, job_list is empty, and the record returned is the one just handed over |
| JobHazards.DropsWhen | miner/scheduler.c:625 | the reader's put is clipped exactly when all of idle_list has been put there by an rbuff_move that has not yet erased it from job_list |
| JobHazards.AddsWhen | miner/scheduler.c:755-779 | when the run flag is set again between the hasher's two looks, its stale record is added if and only if the reader completes a hand-over, one or several, between the empty get and the put |
| JobHazards.CutWhen | miner/rbuff.c:528-535 | the first put of rbuff_move is clipped short exactly when the reader is between put and erase and the first span reaches into the last record queued |
| JobHazards.TearsWhen | miner/rbuff.c:528-544 | after a first put cut for want of room the second put takes something if and only if the content lies in two spans and the reader has erased in the meantime |
| JobHazards.MisreadWhen | miner/rbuff.c:528-537 | rbuff_move sees no room in idle_list exactly when there is none, or when rp has wrapped around between the two reads of it and is again before wp |
| JobHazards.CallsOneByOne | miner/scheduler.c:545-784 | with put and erase as one step, nothing handed over inside an rbuff_move and no stale record, every state of every run keeps all NCACHE slots and no put is clipped |
| JobHazards.AllRecordsReturn | miner/scheduler.c:782-784 | the erase that ends an rbuff_move leaves job_list empty if and only if all of it was copied, and then all NCACHE records are in idle_list, each slot once; an undisturbed rbuff_move does so |
| JobHazards.SlotsExclusive | miner/scheduler.c:545-627 | with all slots kept, the slot the reader fills is neither queued nor in the hasher's hand |
| JobRuns.LossRun | miner/scheduler.c:625-626 | a run from the start in which a record is lost although idle_list was not full at the hand-over |
| JobRuns.AddRun | miner/scheduler.c:755-779 | a run from the start in which a record is added |
| JobRuns.DropRun | miner/scheduler.c:625 | a run from the start in which the reader's put on a full job_list drops a record |
| JobRuns.TornRun | miner/rbuff.c:521-551 | a run from the start in which rbuff_move leaves one byte of a record in each ring, with records of two bytes and rings of seven cells |
| JobHazards.FillIdle | miner/scheduler.c:845-861 | the one write span covers all records, and idle_list then holds NCACHE cleared records |
| Deadline.MemoryReversed | miner/scheduler.c:1168-1177 | writing the memory bytes of a number in reverse is writing it most significant byte first |
| Deadline.BigEndianAt | miner/scheduler.c:1168-1177 | byte k of the n written, from the front, weighs 256^(n - 1 - k) |
| Deadline.SeedIs | miner/scheduler.c:1191-1192 | the account comes first and the nonce after it, each with its highest byte first |
| Deadline.ChainedIff | miner/scheduler.c:1196-1207 | the generated data is the one sequence that ends in the seed and in which every hash is of at most 4096 bytes after it |
| Deadline.Generate | miner/scheduler.c:1197-1207 | the loop that writes hashes from the back of the buffer produces that sequence |
| Deadline.MakePlot | miner/scheduler.c:1185-1216 | the buffer ends as that sequence masked with the digest of all of it, with the account and the nonce behind it unmasked |
| Deadline.Unmasked | miner/scheduler.c:1209-1216 | xoring the plot data with the digest of the chain, over and over, gives the chain back |
| Deadline.TakeScoop | miner/scheduler.c:1223-1225 | the first 32 bytes are the scoop's own, the last 32 the second half of its mirror |
| Deadline.TwoUpdates | miner/scheduler.c:1218-1230 | hashing 32 and then 64 bytes is hashing the 96 bytes at once |
| Deadline.CalcScoop | miner/scheduler.c:244-257 | the scoop number is taken from the digest of signature and big-endian height, and is below 4096 |
| Deadline.ScoopIs | miner/scheduler.c:257 | the low byte of the scoop number is the last byte of the digest, its upper four bits the low ones of the byte before |
| Deadline.CalcDl | miner/scheduler.c:1179-1233 | the value is the hash of the signature and the mirrored scoop of the nonce's plot data |
| PlotDeadline.MirroringConverts | miner/scheduler.c:736-740 | taking second halves from mirror scoops turns PoC1 into PoC2 data and back |
| PlotDeadline.Delivered | miner/scheduler.c:646-741 | what th_read delivers for a slot is the scoop in the network's format, whatever format the file has |
| PlotDeadline.ChunkHashes | miner/scheduler.c:1179-1233 | hashing a chunk so delivered gives calc_dl's value for every nonce in it |
| PlotDeadline.SearchChunk | miner/scheduler.c:771-777 | the scalar and the lane-parallel kernels leave the same target, with strictly falling reports of the chunk's own nonces and hashes |
| PlotDeadline.MineFile | miner/scheduler.c:538-784 | layout, chunks, reads in either order, merge, hashing and search together, whenever the scan covers the plot exactly: the reports fall strictly to the final target; unless a seek or a read failed that is the least of the initial one and calc_dl's deadline of every nonce of the plot, and every report is of such a nonce with calc_dl's value |
| CoinSwitch.Miner.CoinPriorityIntr | pool_api.go:56-74 | compares the last places of the two coins in the list, an absent coin ranking last |
| CoinSwitch.Miner.GetNewMiningInfo | pool_api.go:16-53 | the whole new state: current block, active coin, table entry, progress, and whether the built-in miner is started |
| CoinSwitch.Miner.NewMiningInfo | pool_api.go:76-117 | the whole new state for each combination of coin, height, signature and the two scanning checks |
| CoinSwitch.EveryRun | pool_api.go:16-117 | over every run the active coin's entry is the current block; each stored height is the last accepted one, or one less while its interruption counts; the built-in miner starts on every accepted block, but for the first when OpenScan was off |
| CoinSwitch.NeverFarBack | pool_api.go:95-98 | an accepted height is at least the coin's last accepted one minus one, and lower only after an interruption |
| CoinSwitch.SwitchesUpwards | pool_api.go:95-114 | while the entry check says scanning the coin changes only to a better ranked one; the table changes exactly when a block is accepted |
| CoinSwitch.NextBlockTaken | pool_api.go:92-98 | over every run a pushed block of the active coin is taken, whatever the scanning checks say, if and only if it is higher than the current one or as high with another signature; else nothing changes |
| CoinSwitch.HigherBlockTaken | pool_api.go:92-98 | over every run a block of a configured coin higher than the last one taken for it is taken when the entry check says not scanning or the coin ranks no worse than the active one; while scanning a worse coin changes nothing |
| CoinSwitch.InterruptionMarks | pool_api.go:99-112 | over every run, when the coin changes, the old coin keeps its block, one lower exactly when the second check says scanning and the miner is external or below the rescan rate |
| CoinSwitch.NoCoinMeansBHD | pool_api.go:82-90 | a push without a coin is one of BHD, and changes nothing when BHD is not configured |
| CoinSwitch.StoredAgain | pool_api.go:96-98 | pushing exactly the stored block again changes nothing |
| CoinSwitch.InterruptedBlockReturns | pool_api.go:92-114 | an interrupted block pushed again later is accepted again if and only if the interruption marked it as not scanned |
| Digits.ValueOfDigits | liboo/crypto.go:91-100 | repeated division yields digits whose value is the number |
| Digits.LeadingDigit | liboo/crypto.go:91 | a digit in front weighs the base to the number of digits behind it |
| Digits.DigitsOfValue | liboo/crypto.go:116-124 | digits without a leading zero are the digits of their value |
| Base58.Reverse | liboo/crypto.go:107-109 | the swapping loop reverses the slice in place |
| Base58.Base58Encode | liboo/crypto.go:88-112 | the letters of the base-58 digits, with the zero digit in front for a leading zero byte |
| Base58.AlphabetIs | liboo/crypto.go:85 | the alphabet is the digits and letters of ASCII without 0, I, O and l |
| Base58.IndexByte | liboo/crypto.go:119 | the first place of a character, or -1 |
| Base58.Base58Decode | liboo/crypto.go:115-131 | the bytes of the magnitude of the accumulated number, unknown characters counting -1, with a zero byte in front for a leading zero digit |
| Base58.EncodingIs | liboo/crypto.go:102-105 | an encoding starts with the zero digit if and only if the input starts with a zero byte |
| Base58.DecodeEncode | liboo/crypto.go:88-131 | decoding an encoding gives the input with its leading zero bytes collapsed to at most one |
| Base58.RoundTripIff | liboo/crypto.go:88-131 | the round trip is the identity if and only if the input does not start with two zero bytes |
| Base58.EncodeDecode | liboo/crypto.go:88-131 | encoding a decoded text gives the text with its leading zero digits collapsed likewise |
| Base58.EncodingsAgree | liboo/crypto.go:88-112 | two inputs have the same encoding if and only if they agree after the collapse |

## Left out

- Files, disks, directories and the BFS table: a file is a byte sequence, a read copies some of it, or fails.
- UDP, websocket, HTTP, JSON, SQLite, logging and user interface: messages are parameters; send_report appends to a list.
- CPU detection, alignment and weak memory: a vector is a sequence of 32-bit lanes, and steps are sequentially consistent.
- PlotRead.Handle.ReadFile: each successful read is taken to return a positive multiple of 64 bytes; one that returns nothing for ever would not end.
- PlotRead.ThRead: after a failed read the chunk is hashed with the bytes that were there; nothing is claimed about it.
- PlotDeadline.MineFile: reader and hasher are taken in turn; how records travel between the two is JobExchange. The run flag stays set.
- TaskQueue.TaskQ.Push: the sequential queue; with a consumer at work the free count can be misread, exactly as Ring.FreeReadTwice says, and a push is then refused although there is room.
- PlotScan.ScanStagger: the inner index is a C int, so staggers of 2^31 and more are excluded.
- PlotScan.ScanFile: an interrupted scan is not modelled; it reads a prefix of the same chunks.
- RingConcurrent.EveryInterleavingSafe: rbuff_reset and the span pointers are not among the concurrent steps.
- BufferQueue.BQueue.ProducerGet: allocation succeeds; a buffer pointer is a number and takes one cell of its ring.
- JobExchange.EveryRunHoldsRecords: a put or get of one record is a single step; it is all or nothing, and RingConcurrent covers its inside. An rbuff_move is in its parts. The reallocation of a record's cache is not modelled.
- ScanKernels.HashArg.ScanLanes: the `best` field the AVX2 and AVX-512 kernels also update is not modelled. The cache must reach to the end of the last group, because what a read behind the allocated buffer yields is not defined.
- The target shared by several workers (s_dl) and the height check before it is lowered: one worker is modelled.
- CoinSwitch: heights are unbounded integers; a stored height is never below minus the number of events, so 64 bits do not wrap in any run shorter than 2^63. Handlers run one at a time.
- Deadline.CalcDl: the signature is already decoded from hexadecimal (xstr2strr).
- rbuff_string_pos, rbuff_string_pbrk, rbuff_ptr_pos, rbuff_add_print, pbuff and tbuff: easier variants that add nothing to the ring's properties.
- Base58.Base58Encode: an empty input makes the original panic, so it is excluded.
