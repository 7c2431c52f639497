# sqd-go in Dafny

A model of the stateful algorithms of sqd-go, an indexer of EVM event logs, with proofs of what
they guarantee.  `dafny verify dfyconfig.toml` checks the whole project.

- **Parallel prefetcher** (`Tiling`, `Prefetcher`, `PrefetchProtocol`, `PrefetchInvariant`,
  `PrefetchProgress`, `PrefetchRuns`, `PrefetchReentry`, `PrefetchConverse`, `PrefetchStall`,
  `PrefetchLaws`).  The class performs the critical sections on mutable fields and is proved equal to
  step functions; the protocol interleaves those steps over any number of workers, a portal that
  answers anything a conforming portal may, and the consumer.  One partition invariant (ready
  chunks, units in flight and queued gaps tile the interval between the two cursors) carries
  order, completeness, progress and termination; the laws say what single sections decide, in
  numbers.
- **Two CLOCK caches** (`Slots`, `Chains`, `ClockTable`, `ClockArena`, `FlatCold`, `SplitBloom`,
  `ColdStore`, `Tiers`, `HotRing`).  Slot arrays, a hash index chained through integer arrays and
  a clock hand, refined to a map; the cold tier with its split-block Bloom filter; and what the two
  tiers show their readers over whole runs.  No result depends on the hash functions.
- **Fork tracking** (`Rings`, `ForkChain`, `BlockRing`, `ForkTrackers`, `ForkRuns`, `ForkStates`,
  `ForkLaws`).  The 1024-slot ring against the list tracker, and the plain list state against it;
  and what all three answer and keep, said about the blocks alone.
- **Replay buffer and its loop** (`ReplayBuffer`, `ReplayLoop`).  The ring with its index map
  against a sequence, and the producer and consumer around it.
- **256-bit arithmetic** (`Decimal256`, `DecimalText`, `DecimalSeparators`, `UInt256`).  Signed
  fixed point, the decimal printer and parser, which separator counts, and limb division.
- **Crash-safe backfill** (`CrashSafety`).  Batches, commits, checkpoints, crashes and resumes.
- **ABI decode plan** (`AbiTypes`, `AbiWords`, `AbiCodec`, `AbiPlan`).  The generated decoders
  against the head/tail encoding of the Solidity Contract ABI Specification, section "Formal Specification of
  the Encoding".

`Modular` holds the arithmetic the rings and limbs share, `Options` the type of missing values,
and `Transitions` what a run is and which states it reaches.

Four guarantees hold less widely than one might expect.  They are stated here as exact conditions:

- a far jump in beast mode is safe exactly when its unit ended at the cursor
  (`PrefetchRuns.FarJumpIsSafeIff`).  Re-entering beast mode is therefore safe as long as no answer
  that enters it, or is taken in it, leaves more than one gap or one away from the cursor
  (`PrefetchReentry.CalmRunsAreTame`, `PrefetchReentry.FirstGapIsSafeIff`).  Re-entry on a unit with
  a remainder of several spans, or a later answer in beast mode short of its unit by more than one
  span, does not meet that.  A run that stops has then handed over overlapping chunks
  (`PrefetchConverse.FinishedIsContiguousIff`), a single worker can hand a block over twice
  (`PrefetchReentry.ReentryHandsOverTwice`), and over a range wider than the window it can wait for
  ever (`PrefetchStall.ReentryStalls`);
- crash safety needs a positive start block, no block ledger, a server queue that settles before the
  next truncation, and a processor that reports how far its state is committed
  (`CrashSafety.CrashSafeIff`);
- the generator counts a fixed array's head words by its outermost length only, so arguments behind
  nested fixed arrays, or behind fixed arrays of several dynamic elements, are read from the wrong
  word (`AbiPlan.WordsRightIff`, `AbiCodec.NestedArrayMisreads`), and it has no decoder for arrays of
  bytesN or of arrays (`AbiCodec.ReadInvertsEncode`);
- the plain fork state and the list tracker part when a batch reports another block at the finalized
  height (`ForkStates.BatchAgreesIff`).

Modelling conventions: block numbers and the clock hand are natural numbers without wrap-around; a
response body is the ascending list of its header numbers; inputs and outputs that cross the
network or the database are parameters or are chosen freely by a step.

## Model

| member | source | states |
|---|---|---|
| Prefetcher.ParallelPrefetcher.constructor | internal/ingestion/parallel_fetch.go:216-260 | a new prefetcher starts both cursors at the start block with a span of 131072, and probes exactly when all blocks are wanted or the range is wider than that; zero page size and worker counts below one get their defaults |
| Prefetcher.ParallelPrefetcher.TryGetWork | internal/ingestion/parallel_fetch.go:375-433 | one pass of the claim loop: the lowest gap inside the window, else a stride off the cursor, else termination, else waiting; one unit at a time while probing. In pinned mode, without gaps and with blocks left, it returns a unit if and only if the cursor is at most eight clamped spans a worker, or one page a worker, above the awaited block; a lowest gap is claimed if and only if it starts within that distance |
| Prefetcher.ParallelPrefetcher.FinishUnit | internal/ingestion/parallel_fetch.go:437-446 | the in-flight count drops by one and nothing else changes |
| Prefetcher.FoldSpan | internal/ingestion/parallel_fetch.go:713-731 | the span estimate never leaves its bounds |
| Prefetcher.ParallelPrefetcher.UpdateGapSpan | internal/ingestion/parallel_fetch.go:713-731 | the moving average of the span, clamped; a zero observation is ignored |
| Prefetcher.CoveredTo | internal/ingestion/parallel_fetch.go:502-533 | the covered point lies between the unit's start and the range's end, and within the unit when the request was pinned |
| Prefetcher.ParallelPrefetcher.EnqueueGaps | internal/ingestion/parallel_fetch.go:664-678 | a remainder is cut into span-sized units and the queue is sorted by start |
| Prefetcher.ParallelPrefetcher.DeliverChunk | internal/ingestion/parallel_fetch.go:681-690 | a chunk without an error is filed under its first block |
| Prefetcher.ParallelPrefetcher.HandlePinned | internal/ingestion/parallel_fetch.go:514-655 | a pinned answer's whole effect on the shared state up to the requeue: covered point, trimmed body, span average, empty counter, re-entry into beast mode, delivery |
| Prefetcher.ParallelPrefetcher.HandleBeast | internal/ingestion/parallel_fetch.go:514-655 | the same for an answer that may run to the end of the range: leaving beast mode on data, moving the cursor past a far jump, requeueing an undershoot |
| Prefetcher.ParallelPrefetcher.TryNext | internal/ingestion/parallel_fetch.go:292-334 | one pass of the consumer's loop, including the fallback to the lowest ready chunk once all workers are done |
| Prefetcher.ParallelPrefetcher.LowestReady | internal/ingestion/parallel_fetch.go:309-321 | the loop over the reorder map finds its least key |
| Prefetcher.ParallelPrefetcher.TruncateRaw | internal/ingestion/parallel_fetch.go:756-774 | the overshoot tail is dropped at the first line above the bound |
| PrefetchProtocol.TrimKeepsBelow | internal/ingestion/parallel_fetch.go:756-774 | trimming an ascending body keeps a prefix, and exactly the blocks at or below the bound |
| PrefetchProtocol.ChunkIsFaithful | internal/ingestion/parallel_fetch.go:551-559 | every delivered chunk holds only blocks of its own range, in order, and every matching one |
| PrefetchLaws.ClaimsIff | internal/ingestion/parallel_fetch.go:361-427 | in every mode a unit is handed out if and only if no stop is latched, beast mode has no unit in flight, and the lowest gap or the cursor lies within eight clamped spans a worker or one page a worker; the work ends if and only if nothing is left to claim, queued or in flight |
| PrefetchLaws.ClaimTakes | internal/ingestion/parallel_fetch.go:399-419 | the unit is the lowest gap if that is near enough, else as many blocks off the cursor as five quarters of the clamped span, 131072 and the end of the range allow |
| PrefetchLaws.SpanIsMean | internal/ingestion/parallel_fetch.go:713-731 | the new estimate is three quarters of the old one and one quarter of the observation, up to the rounding of either quarter, held between 100 and 131072 |
| PrefetchLaws.AnswerCovers | internal/ingestion/parallel_fetch.go:502-559 | a nonempty conforming answer covers its unit up to its last block or the pin, an empty one a page at most, and the delivered body keeps exactly the blocks up to there |
| PrefetchLaws.PinnedAnswer | internal/ingestion/parallel_fetch.go:534-605 | a pinned answer folds the number of blocks covered into the estimate, resets the empty counter on data, and enters beast mode if and only if it is at least the fifth empty one in a row with no gap queued and no other unit in flight |
| PrefetchLaws.BeastAnswer | internal/ingestion/parallel_fetch.go:601-658 | in beast mode data ends the mode and makes the clamped number of blocks covered the estimate, a marker leaves both alone; the cursor ends behind the covered blocks, and exactly what the answer left of its unit is queued |
| PrefetchLaws.NextTakes | internal/ingestion/parallel_fetch.go:292-331 | the consumer is handed the awaited chunk, or, with every worker gone, the lowest one left, and then awaits the block behind it |
| PrefetchLaws.SplitSizes | internal/ingestion/parallel_fetch.go:664-673 | every unit of a remainder but the last holds exactly the span, and there are no more of them than needed |
| PrefetchLaws.EnqueueAdds | internal/ingestion/parallel_fetch.go:664-678 | queueing a remainder adds exactly those units, cut by the clamped estimate |
| PrefetchInvariant.SortKeeps | internal/ingestion/parallel_fetch.go:674-674 | sorting keeps the queued ranges and orders distinct starts strictly |
| PrefetchInvariant.SplitTiles | internal/ingestion/parallel_fetch.go:669-673 | the units cut from a remainder tile it |
| PrefetchInvariant.ClaimPartition | internal/ingestion/parallel_fetch.go:392-419 | claiming a gap or a stride keeps chunks, units in flight and gaps a partition of the two cursors' interval |
| PrefetchInvariant.AnswerPinnedPartition | internal/ingestion/parallel_fetch.go:514-658 | so does answering a pinned unit, the remainder staying with the worker until it is requeued |
| PrefetchInvariant.RequeuePartition | internal/ingestion/parallel_fetch.go:664-678 | so does requeueing the remainder as a separate step |
| PrefetchInvariant.AnswerBeastPartition | internal/ingestion/parallel_fetch.go:623-658 | so does a beast answer, far jump included, when its unit ended at the cursor |
| PrefetchInvariant.NextIsInOrder | internal/ingestion/parallel_fetch.go:292-331 | the fallback to the lowest ready chunk never emits: whatever Next returns starts at the emission cursor |
| PrefetchInvariant.StepKeeps | internal/ingestion/parallel_fetch.go:375-678 | every step of every worker and of the consumer, except a beast answer that jumps from a unit not ending at the cursor, keeps the whole invariant: partition, sorted queue, faithful chunks, contiguous emission, in-flight count, request budget |
| PrefetchInvariant.StartHolds | internal/ingestion/parallel_fetch.go:216-269 | the invariant holds initially |
| PrefetchRuns.TameRunKeeps | internal/ingestion/parallel_fetch.go:375-678 | it holds after every run whose far jumps start from units ending at the cursor |
| PrefetchRuns.ProbeIsTame | internal/ingestion/parallel_fetch.go:253-257 | through the whole initial probe held and queued units end at the cursor, so runs that do not re-enter beast mode satisfy that |
| PrefetchRuns.UnengagedRunsAreTame | internal/ingestion/parallel_fetch.go:575-600 | the corollary in terms of whole runs |
| PrefetchRuns.StreamIsComplete | internal/ingestion/parallel_fetch.go:547-559 | contiguous faithful chunks concatenate to a strictly rising list of blocks with every matching block of the interval |
| PrefetchRuns.EmissionIsExactlyOnce | internal/ingestion/parallel_fetch.go:288-334 | in every such run, for any portal and any interleaving: chunks leave contiguously from the start block, their blocks rise strictly, no matching block below the cursor is missing, and no more requests are answered than there are blocks |
| PrefetchRuns.DoneMeansComplete | internal/ingestion/parallel_fetch.go:421-427 | when everything has stopped the emitted chunks end at the end block |
| PrefetchRuns.NeverStuck | internal/ingestion/parallel_fetch.go:361-433 | every unfinished state that satisfies the invariant has an enabled step despite the look-ahead window |
| PrefetchRuns.LowestIsClaimable | internal/ingestion/parallel_fetch.go:392-412 | with nothing in flight and the awaited chunk missing, the lowest gap or the cursor sits exactly at the emission point |
| PrefetchRuns.FinishedRunIsComplete | internal/ingestion/parallel_fetch.go:288-334 | a run that cannot go on has emitted the whole range with every matching block once |
| PrefetchProgress.StepDescends | internal/ingestion/parallel_fetch.go:375-678 | every step of every run, unsafe far jumps included, decreases a well-founded measure; an answer takes at least one block off the outstanding ones and no step adds any |
| PrefetchProgress.NoInfiniteRun | internal/ingestion/parallel_fetch.go:375-678 | so no run is infinite, whatever the portal answers and however workers are scheduled |
| PrefetchProgress.AnswersStayWithinBudget | internal/ingestion/parallel_fetch.go:375-678 | and at every point of every run no more requests have been answered than there are blocks in the range |
| PrefetchRuns.LookAheadStaysBounded | internal/ingestion/parallel_fetch.go:361-412 | apart from far jumps no step takes the cursor further ahead of the consumer than the window plus one stride |
| PrefetchRuns.PinnedRunIsBounded | internal/ingestion/parallel_fetch.go:361-412 | the bound holds throughout any run without far jumps |
| PrefetchRuns.FarJumpIsSafeIff | internal/ingestion/parallel_fetch.go:623-633 | a far jump keeps the partition if and only if its unit ended at the cursor |
| PrefetchRuns.FarJumpOverlaps | internal/ingestion/parallel_fetch.go:623-633 | a far jump past a unit that ends short of the cursor overlaps the piece behind it |
| PrefetchReentry.CalmRunsAreTame | internal/ingestion/parallel_fetch.go:575-600 | runs may re-enter beast mode any number of times: if each answer that enters beast mode, or is taken in it without leaving it, leaves at most one gap, ending at the cursor and within one span, every far jump starts at the cursor and the invariant holds throughout |
| PrefetchReentry.SerialKeeps | internal/ingestion/parallel_fetch.go:384-412 | under such answers at most one unit is held, left over or queued while beast mode lasts, and it ends at the cursor |
| PrefetchReentry.FirstGapIsSafeIff | internal/ingestion/parallel_fetch.go:384-412 | with beast mode on and nothing in flight, whatever the portal answers to the first queued gap keeps the partition if and only if that gap ends at the cursor, which makes it the only one; otherwise a conforming answer that breaks it exists, for any set of matching blocks |
| PrefetchReentry.ReentryHandsOverTwice | internal/ingestion/parallel_fetch.go:575-658 | a complete run of one worker from the initial state: five one-block answers re-enter beast mode with a remainder of two spans, a far jump breaks the partition, and when all has stopped the consumer has received the one matching block twice |
| PrefetchConverse.FarJumpOrphans | internal/ingestion/parallel_fetch.go:623-658 | after a far jump from a unit that ends short of the cursor a chunk covers the block behind the unit, and another unit or chunk starts at that block |
| PrefetchConverse.FinishedIsContiguousIff | internal/ingestion/parallel_fetch.go:288-334 | a run in which everything has stopped has handed over the whole range chunk after chunk if and only if every far jump in it started from a unit ending at the cursor |
| PrefetchStall.StrandedStays | internal/ingestion/parallel_fetch.go:292-334 | when the awaited block is behind the cursor, not buffered and in no unit, no step emits anything until every worker has exited |
| PrefetchStall.ReentryStalls | internal/ingestion/parallel_fetch.go:575-658 | a run of one worker over a range wider than the window that ends in such a state with no step left: far jumps from gaps away from the cursor leave worker and consumer waiting for each other |
| Slots.DoubleUntil | coldcache/flatcold.go:79-82 | the bucket count is the start doubled the fewest times that reach the target |
| Slots.ReferencedGoLast | coldcache/flatcold.go:158-178 | a referenced slot is given up only if every slot was in use and referenced |
| Slots.PickIsDetermined | coldcache/flatcold.go:158-178 | use bits, reference bits and hand leave one possible pick, with one number of ticks and one outcome of the bits |
| Slots.ScanPasses | coldcache/flatcold.go:158-173 | the hand never passes more slots than there are without having met a free or an unreferenced one |
| Chains.PushKeeps | coldcache/flatcold.go:133-137 | linking a slot puts it in front of its own chain and leaves chains disjoint and acyclic |
| Chains.CutKeeps | coldcache/flatcold.go:139-154 | unlinking removes that slot from its chain and from no other |
| ClockArena.Sweep | coldcache/flatcold.go:158-173 | the clock hand settles within capacity + 1 ticks: on the next free slot without touching reference bits when not clearing, else on the first free or unreferenced slot, having cleared exactly the bits it passed |
| ClockArena.ClockArena.constructor | coldcache/flatcold.go:73-86 | an empty table: every slot free, every chain empty |
| ClockArena.ClockArena.Lookup | coldcache/flatcold.go:120-131 | the chain walk finds the key's slot if and only if the map has the key |
| ClockArena.ClockArena.IdxInsert | coldcache/flatcold.go:133-137 | the two array writes are the chain push on the snapshot |
| ClockArena.ClockArena.IdxUnlink | coldcache/flatcold.go:139-154 | the chain walk and its writes are the chain cut on the snapshot |
| ClockArena.ClockArena.Evict | coldcache/flatcold.go:174-176 | unlinking and freeing a slot removes its key from the map and nothing else |
| ClockArena.ClockArena.Occupy | coldcache/flatcold.go:191-197 | filling a free slot adds exactly the new record to the map |
| ClockArena.ClockArena.OverwriteEntry | coldcache/flatcold.go:186-190 | overwriting changes one value and sets one reference bit |
| ClockArena.ClockArena.Settle | coldcache/flatcold.go:158-178 | the hand's move leaves the map alone, and only the hand and the passed reference bits change |
| ClockTable.EvictKeeps | coldcache/flatcold.go:174-176 | eviction keeps chains, distinct keys and size, and is removal on the map |
| ClockTable.OccupyKeeps | coldcache/flatcold.go:191-197 | occupation keeps them and is insertion on the map |
| ClockTable.MapSize | coldcache/flatcold.go:46-47 | the size field is the number of keys, at most the capacity, and equal to it exactly when no slot is free |
| FlatCold.FlatCold.constructor | coldcache/flatcold.go:50-55 | capacity zero becomes one; the store starts empty |
| FlatCold.FlatCold.AllocSlot | coldcache/flatcold.go:158-178 | a free slot is returned; a full store first gives up exactly the key the clock picks |
| FlatCold.FlatCold.Put | coldcache/flatcold.go:180-198 | adds or overwrites; only when full and the key is new does one other key go, the one the clock picks; reference bits and hand end as the clock leaves them |
| FlatCold.FlatCold.Get | coldcache/flatcold.go:200-223 | answers as the map would and marks only that key's slot |
| FlatCold.FlatCold.Del | coldcache/flatcold.go:225-237 | removes exactly the key and says whether it was there; a miss leaves the table as it was |
| FlatCold.RunAll | coldcache/flatcold.go:180-237 | on every sequence of operations whose live keys fit, every reply is that of an ordinary map |
| SplitBloom.SplitBloom.constructor | coldcache/filter_split.go:41-54 | block count: 64 doubled the fewest times that cover the bit budget |
| SplitBloom.SplitBloom.Add | coldcache/filter_split.go:56-72 | the words change by exactly the key's eight ORs, and every key added before or now is covered |
| SplitBloom.SplitBloom.MayContain | coldcache/filter_split.go:74-95 | true if and only if something was added and all eight bits are set; hence true for every added key, and for another key if and only if each of its eight bits collides with one of a key added |
| SplitBloom.OrderIsIrrelevant | coldcache/filter_split.go:61-70 | any two histories made of the same atomic ORs leave the same words: no interleaving of parallel adders loses a bit |
| SplitBloom.InterleavedAddsAreCovered | coldcache/filter_split.go:61-70 | a key all of whose ORs occur somewhere in a history is covered after it |
| SplitBloom.OredIsLeast | coldcache/filter_split.go:70-70 | and no bit is set that no OR set |
| SplitBloom.MaskIsOneBit | coldcache/filter_split.go:61-70 | a mask is a single bit, and two masks of one word have nothing in common unless they are the same bit |
| SplitBloom.BitIsTopSix | coldcache/filter_split.go:70-70 | that bit is numbered by the top six bits of the 64-bit product of hash and salt |
| SplitBloom.BitNeedsItsOr | coldcache/filter_split.go:61-93 | after any interleaving of keys' ORs a key's bit is set only if that very OR occurred |
| SplitBloom.PresentIff | coldcache/filter_split.go:74-95 | whatever was added in whatever order, a key is rejected if and only if one of its eight bits collides with no added key's |
| ColdStore.ColdStore.constructor | coldcache/coldcache.go:150-175 | the filter, if any, is attached before the first write |
| ColdStore.ColdStore.Put | coldcache/coldcache.go:276-294 | the key is stored and recorded by the filter; a bounded backend loses at most one other key, an unbounded one nothing |
| ColdStore.ColdStore.MightContain | coldcache/coldcache.go:368-377 | every key ever written reports true, and another exactly when its eight bits collide with those of keys written; without a filter every key does |
| ColdStore.ColdStore.Get | coldcache/coldcache.go:379-432 | skipping the backend on the filter's word never hides a stored key |
| ColdStore.ColdStore.Delete | coldcache/coldcache.go:436-449 | removes the key from the backend; the filter never forgets |
| HotRing.HotRing.constructor | internal/codegen/hot_state.go:206-228 | default capacity, bucket count and an empty ring |
| HotRing.HotRing.Claim | internal/codegen/hot_state.go:311-334 | the hand's slot is freed; a used one is written to the cold tier before it is unlinked |
| HotRing.HotRing.SetByKey | internal/codegen/hot_state.go:302-341 | writes in place, into a free slot, or over exactly the clock's victim, which is spilled first |
| HotRing.HotRing.Get | internal/codegen/hot_state.go:350-379 | hot value, else cold value promoted into the ring as by SetByKey, with the clock's victim spilled and hand and bits as the clock leaves them, else a miss, which leaves the ring as it was |
| HotRing.HotRing.Delete | internal/codegen/hot_state.go:487-505 | true exactly for a key in the ring, which then leaves both tiers; a miss leaves the ring as it was |
| HotRing.HotRing.ColdMightContain | internal/codegen/hot_state.go:454-475 | false without a cold tier; true for every key ever spilled |
| HotRing.HotRing.AppendValues | internal/codegen/hot_state.go:525-544 | every hot entry's value exactly once, in slot order, although only slots below min(hand, capacity) are looked at |
| Tiers.SetShows | internal/codegen/hot_state.go:302-341 | over a lossless cold tier a Set changes what readers see at the written key only, whatever was evicted |
| Tiers.GetShowsNothing | internal/codegen/hot_state.go:350-379 | a Get changes nothing readers see, even when its promotion evicts another key |
| Tiers.DeleteShows | internal/codegen/hot_state.go:487-505 | a Delete returning true removes the key from both tiers and nothing else |
| Tiers.LosslessRunsAreAMap | internal/codegen/hot_state.go:302-379 | over every run the two tiers together are an ordinary map and every Get answers as it would |
| Tiers.RunsStayCurrent | internal/codegen/hot_state.go:454-475 | over every run on any cold tier, bounded ones included: whatever is visible is the last value set, and a live key that left the ring was written to the cold tier |
| Tiers.GetsAreHonest | internal/codegen/hot_state.go:454-475 | so at every Get an answer is current, and a miss of a live key is one the filter reports as maybe present |
| HotRing.Perform | internal/codegen/hot_state.go:302-505 | each operation on the ring is one event of a run over the two tiers: the event of that operation with its key, value and answer |
| HotRing.PerformAll | internal/codegen/hot_state.go:302-505 | any operations on a fresh ring over a cold tier are, operation by operation with their answers, a run over the two tiers that ends in the ring's state; no answer was and nothing visible is stale, a missed live key was written to the cold tier, and over a lossless tier every answer is an ordinary map's and so is the final state |
| ForkChain.CapsCommute | internal/fork_sqd/fork_sqd.go:189-198 | dropping the oldest after every block, as the ring does, or once per batch, as the list does, is the same |
| ForkChain.FilterIsRedundant | internal/fork_sqd/fork_sqd.go:175-187 | filtering a batch by its effective finality before appending changes nothing |
| ForkChain.FilterDropsPrefix | internal/ingestion/fork_go.go:67-80 | on an ascending chain pruning by filter is dropping a prefix |
| ForkChain.PushAscending | internal/ingestion/fork_go.go:220-229 | pushing an ascending chain one by one keeps its unfinalized tail |
| ForkChain.EffectiveNeverLeads | internal/ingestion/fork.go:74-93 | the finality recorded for a batch never exceeds the header's and is the header's or a block of the batch |
| ForkChain.EffectiveIsHighest | internal/ingestion/fork.go:74-93 | for an ascending batch it is the highest of its blocks the header covers |
| ForkChain.RollbackStopsAtDisagreement | internal/ingestion/fork.go:150-177 | on ascending chains all common heights up to the returned index agree, and a disagreement precedes any agreement behind it |
| ForkChain.RollbackIsHighestCommon | internal/ingestion/fork.go:150-177 | on hash-consistent chains the index is that of the highest common block, and -1 exactly when there is none |
| BlockRing.EffectiveFinalizedHead | internal/ingestion/fork.go:74-93 | the loop computes the effective finalized head |
| BlockRing.BlockRingBuffer.Push | internal/ingestion/fork_go.go:30-64 | the ring's contents become the appended chain, capped at 1024 |
| BlockRing.BlockRingBuffer.Prune | internal/ingestion/fork_go.go:67-80 | the finalized prefix leaves the ring |
| BlockRing.BlockRingBuffer.SetFinalizedHead | internal/ingestion/fork_go.go:83-91 | the mark only rises, and pruning happens when it does |
| BlockRing.BlockRingBuffer.FindCommonAncestor | internal/ingestion/fork_go.go:111-190 | on every sample, in any order, the ring answers and rolls back as the list computation does, or is left alone |
| BlockRing.BlockRingBuffer.GetChain | internal/ingestion/fork_go.go:193-204 | the copy is the ring's contents, oldest first |
| BlockRing.BlockRingBuffer.Head | internal/ingestion/fork_go.go:207-212 | the newest block, else the finalized head |
| BlockRing.BlockRingBuffer.Init | internal/ingestion/fork_go.go:220-229 | contents after pushing the given heads onto an empty ring |
| BlockRing.BlockRingBuffer.ApplyBatch | internal/ingestion/fork_go.go:232-238 | mark and contents after a batch |
| ForkTrackers.RingBufferTracker.Init | internal/ingestion/tracker.go:35-41 | cursor, mark and chain after initialization |
| ForkTrackers.RingBufferTracker.ApplyBatch | internal/ingestion/tracker.go:62-71 | cursor, mark and chain after a batch |
| ForkTrackers.RingBufferTracker.HandleFork | internal/ingestion/tracker.go:50-60 | answer, cursor and chain after a fork sample; a failure changes nothing |
| ForkTrackers.ListTracker.Init | internal/fork_sqd/fork_sqd.go:31-40 | the list tracker's state after initialization |
| ForkTrackers.ListTracker.ApplyBatch | internal/fork_sqd/fork_sqd.go:52-60 | the list tracker's state after a batch |
| ForkTrackers.ListTracker.HandleFork | internal/fork_sqd/fork_sqd.go:62-88 | answer and state after a fork sample; a failure clears the list |
| ForkTrackers.ListTracker.AppendRecent | internal/fork_sqd/fork_sqd.go:200-215 | one block appended, replaced or ignored |
| ForkTrackers.ListTracker.CapRecent | internal/fork_sqd/fork_sqd.go:237-244 | the last `limit` blocks stay |
| ForkTrackers.RollbackChain | internal/fork_sqd/fork_sqd.go:175-187 | the blocks above the mark, in order |
| ForkTrackers.FindRollbackIndex | internal/fork_sqd/fork_sqd.go:125-152 | the two-cursor loop computes the rollback index |
| ForkRuns.RunsAreSound | internal/ingestion/fork_go.go:30-190 | after any run, failed forks and unordered input included, the tracked chain is strictly ascending, above the mark, and at most 1024 long |
| ForkRuns.RingRefinesList | internal/ingestion/fork_go.go:220-239 | after any run in which forks since the last start were answered, ring and list tracker agree on chain, finalized mark and cursor |
| ForkRuns.VerdictsAgree | internal/ingestion/fork_go.go:111-190 | and both answer, or both give up, on every sample |
| ForkRuns.ForkKeeps | internal/ingestion/fork_go.go:170-189 | a rollback keeps a prefix of the chain, nothing above the returned block, and never goes below the mark |
| ForkRuns.ForkFindsHighestCommon | internal/ingestion/fork_go.go:111-190 | for ascending hash-consistent chains the block returned is the highest one both sides know |
| ForkRuns.FinalityOnlyRises | internal/ingestion/fork_go.go:83-91 | until the next start the mark never falls |
| ForkRuns.RollbacksRespectFinality | internal/ingestion/fork_go.go:83-190 | no later rollback goes below a finality once recorded |
| ForkStates.ProcessorState.Init | internal/ingestion/fork.go:21-24 | mark and heads are taken as given, without pruning or capping |
| ForkStates.ProcessorState.ApplyBatch | internal/ingestion/fork.go:65-72 | mark and heads after a batch: at equal height the batch's mark wins |
| ForkStates.ProcessorState.AppendUnfinalized | internal/ingestion/fork.go:95-114 | one block appended, replaced or ignored; the cap of 4096 is applied only when the chain grows |
| ForkStates.ProcessorState.PruneFinalized | internal/ingestion/fork.go:116-128 | the finalized prefix is dropped |
| ForkStates.ProcessorState.RollbackFork | internal/ingestion/fork.go:38-63 | answer and heads after a fork sample; a failure changes nothing |
| ForkStates.ProcessorState.HandleFork | internal/ingestion/fork.go:26-36 | an unanswered fork is an error unless no mark is known, when all heads are dropped |
| ForkStates.BatchAgreesIff | internal/ingestion/fork.go:65-72 | from a shared state one batch leaves this state and the list tracker with the same chain and marks of the same height, and with the same mark if and only if the batch does not report another block at the old mark's height |
| ForkStates.RenamingSplitsVerdicts | internal/ingestion/fork.go:38-72 | after such a batch the two disagree about a fork sample that holds the old mark |
| ForkStates.PlainIsTheList | internal/ingestion/fork.go:21-128 | over every run without such batches and unanswered forks since the last start, rollbacks included, this state is the list tracker's chain and mark with limit 4096 |
| ForkLaws.IndexIsAgreement | internal/ingestion/fork.go:150-177 | on ascending chains the rollback index is the highest block both sides share with no disagreement at any common height below it, and -1 exactly when there is none |
| ForkLaws.RollbackAnswers | internal/ingestion/fork.go:38-63 | a fork is answered if and only if there is such a block, or the finalized head is known and the sample is not empty and entirely below it; the answer is the highest such block and the tracked blocks up to it stay, or else the finalized head and nothing stays |
| ForkLaws.RingAnswersIff | internal/ingestion/fork_go.go:111-190 | so the ring tracker answers exactly those samples, and an unanswered one changes nothing |
| ForkLaws.ListAnswersIff | internal/fork_sqd/fork_sqd.go:62-88 | so does the list tracker, which an unanswered one leaves without chain and cursor |
| ForkLaws.PlainAnswersIff | internal/ingestion/fork.go:38-63 | and so does the plain state |
| ForkLaws.MarkAfterBatch | internal/ingestion/fork.go:74-93 | after an ascending batch the mark is the batch's highest block at or below the header's finalized number, or else the header's, unless the old mark is as high |
| ForkLaws.AppendHas | internal/ingestion/fork_go.go:30-64 | one block joins the chain unless it is final or older than the newest, whose place it takes at equal height |
| ForkLaws.ChainAfterBatch | internal/ingestion/tracker.go:62-71 | after an ascending batch exactly the blocks above the mark are tracked that joined or were not replaced, the newest 1024 of them in ascending order, and the cursor is the batch's last block |
| ForkLaws.ChainAfterStart | internal/ingestion/tracker.go:35-41 | after a start the newest 1024 given blocks above the given mark are, and the cursor is the given one, else the newest block, else the mark |
| ReplayBuffer.ReplayBuffer.constructor | internal/ingestion/replay.go:77-87 | an empty buffer; capacities below one become 8192 |
| ReplayBuffer.ReplayBuffer.Write | internal/ingestion/replay.go:94-177 | for an ascending write the contents become the last `capacity` entries of old contents and new entry |
| ReplayBuffer.ReplayBuffer.GetBlock | internal/ingestion/replay.go:264-276 | the entry of that number if and only if it is held |
| ReplayBuffer.ReplayBuffer.CeilBlock | internal/ingestion/replay.go:290-305 | the least held number at or above n, if there is one |
| ReplayBuffer.ReplayBuffer.PruneBefore | internal/ingestion/replay.go:342-364 | drops exactly the entries at or below the bound and counts them |
| ReplayBuffer.ReplayBuffer.PruneAfter | internal/ingestion/replay.go:368-395 | keeps exactly the entries at or below the bound |
| ReplayBuffer.ReplayBuffer.RebuildIndex | internal/ingestion/replay.go:411-425 | the rebuilt index names every entry's slot |
| ReplayBuffer.ReplayBuffer.ReadFrom | internal/ingestion/replay.go:194-260 | once per seek, exactly the entries above the seek point, oldest first |
| ReplayBuffer.ReplayBuffer.HasBlocks | internal/ingestion/replay.go:328-337 | true exactly when some held entry is above the number |
| ReplayBuffer.WriteKeeps | internal/ingestion/replay.go:94-134 | a write keeps the index exact and the contents ascending |
| ReplayBuffer.DropKeeps | internal/ingestion/replay.go:352-362 | so does dropping the oldest entry |
| ReplayLoop.ConsumerMove | internal/ingestion/ingestion.go:1205-1435 | the consumer takes the block at its cursor, or jumps to the next block present where its mode has gaps, or waits |
| ReplayLoop.RingHoldsTheLast | internal/ingestion/replay.go:94-134 | appending to what the ring still holds is the last entries of everything written |
| ReplayLoop.PruneHoldsTheLast | internal/ingestion/replay.go:368-395 | pruning the ring behind the safe block is the last entries of what was not rolled back |
| ReplayLoop.StepKeeps | internal/ingestion/ingestion.go:963-984 | every write under the back-pressure check, every consumer move and every fork keeps: processed is the written prefix, and everything unconsumed is buffered |
| ReplayLoop.ForkKeeps | internal/ingestion/ingestion.go:1453-1530 | a rollback drops exactly the entries above the safe block, processed ones included, leaves nothing unconsumed, and both sides start again behind it |
| ReplayLoop.ProcessesWhatWasWritten | internal/ingestion/ingestion.go:1403-1435 | after every run, forks included, the consumer has processed exactly the first of the blocks written and not rolled back, once each, in order, and nothing it has yet to process was overwritten |
| ReplayLoop.StallsIff | internal/ingestion/ingestion.go:1417-1435 | with something unconsumed the consumer takes it, jumps to it, or stalls, and it stalls if and only if its cursor names a missing block and, with the parallel prefetcher, lies above the bound or before there is one, or, without it, the sequential fetch leaves no blocks out |
| ReplayLoop.NeverStalls | internal/ingestion/ingestion.go:500-522 | in every run, forks included, the consumer can always take or jump to the next unconsumed entry and never waits before it: for any gaps when the sequential fetch leaves blocks out, for gaps that start at or below a published nonzero bound with the parallel prefetcher, and for dense streams otherwise |
| ReplayLoop.ForksRollBack | internal/ingestion/ingestion.go:1453-1530 | so a fork always finds everything consumed: it takes back exactly the processed blocks above the safe one, of the buffer exactly the entries above it, and leaves no phantom backlog to block the producer |
| ReplayLoop.GuardProtectsIff | internal/ingestion/ingestion.go:579-579 | what the constructor side has to provide: the back-pressure check protects unconsumed entries if and only if the capacity is at least 100, below which the unsigned subtraction wraps |
| ReplayLoop.GuardReleasesIff | internal/ingestion/ingestion.go:579-579 | and with nothing unconsumed the producer may write if and only if the capacity is not exactly 100 |
| ReplayLoop.GuardBlocksIff | internal/ingestion/ingestion.go:579-579 | from a capacity of 100 on a write is stopped if and only if at most 100 slots are left, and below 100 only at counts no buffer reaches |
| ReplayLoop.NothingLostIff | internal/ingestion/ingestion.go:963-984 | no run overwrites a block it has yet to process, if and only if the buffer's capacity is at least 100 |
| ReplayLoop.IngesterLosesNothing | internal/ingestion/ingestion.go:377-381 | with either capacity the ingester uses, 8000 or 1024, no run loses a block and a drained producer may always write |
| Decimal256.FromSignMag | protomath/decimal256.go:510-526 | succeeds exactly when the signed value is in range and then has that value |
| Decimal256.NegExact | protomath/decimal256.go:269-277 | negation fails exactly for the minimum |
| Decimal256.AddExact | protomath/decimal256.go:310-320 | addition wraps modulo 2^256 and reports success exactly when the true sum is in range |
| Decimal256.SubExact | protomath/decimal256.go:322-332 | the same for subtraction |
| Decimal256.MulExact | protomath/decimal256.go:334-344 | the product over the scale truncated toward zero, with success exactly when it fits; result times scale falls short of the product by less than the scale |
| Decimal256.DivExact | protomath/decimal256.go:346-359 | the scaled quotient truncated toward zero, with success exactly when the divisor is nonzero and it fits; result times divisor falls short of the scaled dividend by less than the divisor |
| Decimal256.TruncatedDivides | protomath/decimal256.go:334-359 | the truncated quotient is the one that leaves a remainder smaller than the divisor and of the dividend's sign |
| Decimal256.ModExact | protomath/decimal256.go:361-371 | the remainder completes the truncated quotient, is smaller than the divisor and has the dividend's sign; only a zero divisor fails |
| Decimal256.CmpOrders | protomath/decimal256.go:284-296 | comparison is the signed order |
| Decimal256.RowsInto | protomath/decimal256.go:423-486 | column loops compute every row, touch nothing behind the column, and succeed exactly when every row does |
| DecimalText.NewScale | protomath/decimal256.go:46-57 | the multiplier of a scale is its power of ten, without wrapping, for scales 0 to 76 and no others |
| DecimalText.NormalizeDecimalInput | protomath/decimal256.go:539-584 | the scan over the input computes the normalized text and sign or rejects it |
| DecimalText.NormalizedIs | protomath/decimal256.go:539-584 | between outer blanks and behind its sign a text keeps exactly the digits on either side of the chosen separator; any other character, or the lack of a digit, is an error |
| DecimalText.EveryText | protomath/decimal256.go:539-556 | every text is blanks around a sign and such a rest, or has nothing behind its sign and is an error |
| DecimalText.ParseIs | protomath/decimal256.go:192-223 | parsing any such text yields exactly the signed coefficient its digits denote at the scale, or the error the input deserves |
| DecimalText.RoundTrip | protomath/decimal256.go:192-223 | parsing a printed value returns it: every coefficient, minimum and zero included, at every scale |
| DecimalText.TextIs | protomath/decimal256.go:373-393 | a printed text is the sign, digits, and exactly `scale` digits behind the point, denoting the magnitude |
| DecimalText.GroupingBeforeDot | protomath/decimal256.go:586-602 | commas in the whole part before a decimal dot do not change the parsed value |
| DecimalText.GroupsAlone | protomath/decimal256.go:604-625 | without a dot, well-formed thousands groups are read as one whole number |
| DecimalSeparators.EveryBody | protomath/decimal256.go:586-602 | every acceptable text has no separator, or a dot somewhere, or commas only |
| DecimalSeparators.NoSeparator | protomath/decimal256.go:586-602 | without a separator all digits are the whole part |
| DecimalSeparators.LaterSeparates | protomath/decimal256.go:586-595 | with a dot somewhere the last dot or comma separates and every other one drops out, as in 1.234,56 |
| DecimalSeparators.CommasAlone | protomath/decimal256.go:596-625 | commas alone are grouping if and only if one to three digits are followed by groups of exactly three; otherwise the last one separates and the others drop out |
| DecimalSeparators.OneComma | protomath/decimal256.go:586-625 | one comma between digits reads as a dot does, unless one to three digits stand before it and three behind it, when it reads as nothing |
| DecimalSeparators.Examples | protomath/decimal256.go:586-625 | 1,5 is one and a half and 1,500 is fifteen hundred |
| DecimalSeparators.MiddleCharacter | protomath/decimal256.go:558-577 | between digits an underscore or a blank drops out, and any other character that is neither digit nor separator is an error |
| UInt256.Div64 | protomath/uint256.go:346-349 | the 128-by-64-bit step divides exactly; its operand condition is met at every use |
| UInt256.DivUint64Divides | protomath/uint256.go:339-355 | the four chained steps are division with remainder of the whole 256-bit number |
| UInt256.DivByDivides | protomath/uint256.go:357-362 | so is division by a prepared divisor |
| UInt256.DivisionsAgree | protomath/uint256.go:357-362 | both give the same quotient and remainder |
| UInt256.DivUint64Into | protomath/uint256.go:400-407 | the column loop divides every row |
| UInt256.DivByInto | protomath/uint256.go:409-416 | and the other column loop leaves the same rows |
| CrashSafety.StepKeeps | internal/ingestion/ingestion.go:1259-1394 | processing blocks with and without rows, inserting, server flushes, background commits, checkpoints, crashes and resumes keep the rows of every matching block behind the cursor in exactly one place, and what was derived from it too |
| CrashSafety.ResumeKeeps | internal/ingestion/ingestion.go:312-333 | truncating and resuming restores that from whatever a crash left |
| CrashSafety.AcknowledgeKeeps | internal/template/templates/code/state.go.tmpl:148-192 | when a background commit is acknowledged, all state derived from blocks up to the new horizon is stored |
| CrashSafety.CheckpointsNeverLead | internal/ingestion/ingestion.go:1364-1394 | a new checkpoint never leads the committed horizon, the finalized head, the stored rows or the stored derived state |
| CrashSafety.CheckpointsReach | internal/ingestion/ingestion.go:1364-1394 | and it goes as far as it may: to the least of the last processed block, the horizon where one is reported, and the finalized head where one is known, whenever that is above the durable one, with every queued row flushed |
| CrashSafety.CrashSafeIff | internal/ingestion/ingestion.go:312-333 | as soon as one block from the start on carries rows: every run stores nothing twice and everything up to its checkpoint once, rows and derived state, if and only if the start block is positive, a crashed process's queued inserts settle before the next truncation, the block ledger is off, and a processor that derives state reports its committed horizon |
| CrashSafety.UnreportedStateIsLost | internal/ingestion/ingestion.go:1364-1369 | without the gate on the committed horizon a run checkpoints past derived state that only memory holds, and a crash loses it |
| CrashSafety.StartAtZeroDoubles | internal/ingestion/ingestion.go:324-333 | a run from block 0 that stores a block twice |
| CrashSafety.LingeringQueueDoubles | internal/database/clickhouse.go:939-988 | a run in which inserts landing after the truncation are doubled |
| CrashSafety.LedgerSkipsLostRows | internal/database/clickhouse.go:1229-1275 | a run in which the block ledger's fallback checkpoint skips rows a crash lost |
| AbiWords.DynamicWordRange | abiunpack/abiunpack.go:263-281 | whatever the data, a range that is returned lies inside it |
| AbiWords.RangeIff | abiunpack/abiunpack.go:263-281 | one is returned if and only if the head word is a multiple of 32 that leaves room for a length word and that length fits the data behind it |
| AbiWords.AppendHexBytes | abiunpack/abiunpack.go:28-61 | the loop decodes hex text: optional prefix, odd length, stopping at a bad digit |
| AbiWords.DecodeCanonical | abiunpack/abiunpack.go:131-177 | the strict decoders accept exactly 2n digits and then agree with the general one |
| AbiWords.HexRoundTrip | abiunpack/abiunpack.go:28-61 | decoding undoes encoding, with or without prefix |
| AbiWords.NibbleIs | abiunpack/abiunpack.go:28-61 | the digits of either case have their values, and nothing else is a digit |
| AbiWords.UpperRoundTrip | abiunpack/abiunpack.go:28-61 | upper-case text decodes to the same bytes, whatever the case of the prefix |
| AbiWords.OddRoundTrip | abiunpack/abiunpack.go:28-61 | in text of odd length the first digit is a byte of its own |
| AbiWords.BadPairStops | abiunpack/abiunpack.go:28-61 | decoding stops at the first pair that is not two digits and keeps the bytes before it |
| AbiCodec.ReadArray | abiunpack/abiunpack.go:295-364 | the shared loop of the four array readers decodes word by word, all or nothing; there is no reader for bytesN elements |
| AbiCodec.ItemsIff | abiunpack/abiunpack.go:295-364 | a list of words is read if and only if all are there and each is of the type, and then word by word |
| AbiCodec.ScalarRoundTrip | internal/codegen/codegen.go:1009-1048 | every scalar is read back from its standard word |
| AbiCodec.ReencodesIff | internal/codegen/codegen.go:1029-1048 | any value read from a word is one of its type, and stands for that very word in the standard encoding if and only if the bytes the type leaves unused are zero |
| AbiCodec.ArgumentRead | internal/codegen/codegen.go:1009-1095 | wherever heads and tails lie in the data, an argument of any type read at its head word gets its value if its type is decoded, is left alone if not, and does not compile for arrays of arrays of numbers |
| AbiCodec.ReadInvertsEncode | internal/codegen/codegen.go:1009-1112 | for every list of types, nested arrays included, and fitting values, reading argument i of the standard encoding at its standard head word returns it for every scalar, for bytes and string, for fixed arrays of any scalar and for dynamic arrays of uint, int, address, bool and bytes32; bytesN[], arrays of byte strings and arrays of arrays are left alone, except that arrays of arrays of uint or int make code that does not compile |
| AbiCodec.RenderedIs | internal/codegen/codegen.go:1009-1095 | the generator's branches by the type alone: which types it decodes, and for which it emits code that does not compile |
| AbiCodec.Bytes4ArrayIsLeft | internal/codegen/codegen.go:1050-1066 | a bytes4[] argument is one it has none for: the field stays at its zero value whatever the log holds |
| AbiCodec.PlanWordsRightIff | internal/codegen/codegen.go:1103-1112 | the generator counts a fixed array's outermost length and one word for any other type, which is the standard's count if and only if the type is not a fixed array, or has static elements of one word each, or has a single dynamic element |
| AbiCodec.PlanIndicesRightIff | internal/codegen/codegen.go:1103-1112 | every argument's counted head index is the standard's if and only if each argument with another behind it is of such a type |
| AbiCodec.NestedArrayMisreads | internal/codegen/codegen.go:1103-1112 | for (address[2][3], uint256) the generator reads the second argument from word 3 where the standard puts it in word 6, and gets the fourth address for it |
| AbiPlan.UnpackerPlan | internal/codegen/codegen.go:949-978 | the unpacker generator's two loops require one topic per indexed argument and assign the reference topics and words |
| AbiPlan.ViewPlan | internal/codegen/views.go:235-273 | the view generator's loop assigns the same |
| AbiPlan.ParserPlan | internal/codegen/parser.go:98-122 | the parser generator's two passes assign the same, and its payload minimum is the total head |
| AbiPlan.PlanAt | internal/codegen/codegen.go:956-976 | argument i's topic is one more than the indexed arguments before it, its word the heads before it, omitted ones counted |
| AbiPlan.WordsRightIff | internal/codegen/codegen.go:956-976 | every data argument of an event, indexed and omitted ones between them or not, is assigned its standard head word if and only if each data argument with another behind it is of a type counted right |
| AbiPlan.UnpackInvertsEncode | internal/codegen/codegen.go:949-1007 | unpacking a standard log by the plan, an indexed argument, or one assigned its standard word, gets its value if it is not omitted and is an indexed scalar or of a decoded type; otherwise it is left alone, but for arrays of numbers that do not compile: omission is projection |
| AbiPlan.SupportedEventsRoundTrip | internal/codegen/codegen.go:949-1095 | for every event whose indexed arguments are scalars and whose other arguments are scalars, byte strings, fixed arrays of scalars or dynamic arrays of scalars other than bytesN, the whole log is recovered, whatever is omitted |
| AbiPlan.TopicBools | abiunpack/abiunpack.go:64-67 | every topic is a bool, true if and only if its number is 1 modulo 256; a data word is one only if its number is 0 or 1, and the two then agree |

## Left out

- Prefetcher.ParallelPrefetcher.DeliverChunk: error chunks, which also stop all claims, are not modelled.
- Prefetcher.ParallelPrefetcher.TryNext: cancellation and error chunks are not modelled.
- Prefetcher.ParallelPrefetcher.TruncateRaw: a line without a readable header number, which the code keeps, is not modelled.
- Prefetcher.ParallelPrefetcher.HandlePinned: the counter, the engage test and the delivery are one step, where the code lets other workers run in between.
- Prefetcher.ParallelPrefetcher.HandleBeast: one step likewise, although the code leaves beast mode and moves the cursor outside the lock.
- Prefetcher errors and cancellation: after a fatal fetch pending gaps are not claimed, so in-order completeness is not promised there; runs here are free of errors.
- Prefetcher beast answers are one step: the window between leaving beast mode and moving the cursor, which the code does not hold the lock for, is not interleaved.
- Prefetcher payload: the request bound and head carried by a chunk, and body lines without a header number.
- PrefetchRuns.LookAheadStaysBounded: does not bound far jumps, which move the cursor as far as the portal answered; any other beast answer is covered.
- HotRing: the transient in-use values and the metrics counters; the contract is a single owner. Deleted slots keep their old key and value here, where the code zeroes them; a free slot's record is never read.
- ClockArena.ClockArena.IdxUnlink: walks by slot as the flat store does; the hot ring walks by key, which finds the same slot because keys on a chain are distinct.
- HotRing.HotRing.Delete: a key that lives only in the cold tier is not deleted, as in the code, which returns false for it.
- FlatCold.FlatCold.constructor: the byte layout, the capacity derived from a memory budget, lazy initialization and the mutex are not modelled.
- ColdStore write batches, recovery-time filter population and the embedded database itself, which is an ordinary map here.
- SplitBloom.SplitBloom.Add: the hash is any function, so how often keys collide is not modelled.
- Serialized cold values: the codec of pointer-bearing entities, and the range callback's early stop.
- BlockRingBuffer.HandleFork and the state after an unanswered fork: the list clears, the ring does not, so the two are compared up to that point.
- Fork tracker AddBatch and TruncateAfter, and recovery base selection.
- ReplayBuffer.ReplayBuffer.ReadFrom: the callbacks are taken to succeed; a failing one would stop the replay early.
- ReplayBuffer.ReplayBuffer.Write: what the buffer stands for is stated for ascending writes only.
- ReplayLoop.NeverStalls: the bound is published once between two starts of the producer.
- ReplayLoop.ForkKeeps: the safe block is any below the cursor, where the code takes the fork tracker's; restoring the processor's state and replaying buffered blocks into it is not modelled, nor the mode without replay, in which a fork ends the run.
- ReplayLoop.StepKeeps: the pool of parsed-block objects a batch-parsing processor recycles is not part of this model.
- Replay waiting and notification, and the profile and statistics counters.
- DecimalText.ParseIs: ASCII digits and white space only, where the code asks for Unicode's.
- DecimalSeparators.MiddleCharacter: the same; beyond ASCII the code also takes Unicode digits and drops Unicode white space.
- Decimal conversions from and to big integers, floats and byte orders, which only permute limbs.
- CrashSafety.CrashSafeIff: the rows of one block are one token, and so is what is derived from it, so partial loss inside a block is not distinguished; a crashed process's unfinished commit lands at once or not at all; cursor-mode checkpoints, whose saves overlap the pending insert, are not modelled.
- AbiCodec.ReadInvertsEncode: data of 2^64 bytes and more, and tuples, are outside the model.
- AbiPlan.UnpackInvertsEncode: the parser generator's lenient treatment of failing reads is not modelled.
- AbiPlan.ViewPlan: index assignment only; the view generator does not decode indexed bytesN.
- Topic text with irregular length falls back to go-ethereum's decoding, which is not part of this model.
- Pebble, ClickHouse, HTTP, zstd, JSON, rate limiting, back-off, configuration, page sizing, SQL and scaffolding.
