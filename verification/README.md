# Sabah: a verified model of expert residency

Sabah runs mixture-of-experts models whose experts do not fit in VRAM. This project models the
parts of it whose correctness is an argument rather than a measurement, and proves that argument
for every input, every run and every interleaving.

**The hot tier.** Each transformer block owns a pool of fixed-size VRAM slots with a free list,
two maps between slots and experts, a recency list and the prefetches still in flight. The host
enqueues work on a copy stream and a compute stream that run on their own. `Gpu` is that device:
two queues of operations with an executed prefix each, events that name a point of a stream, waits
that capture the point when they are enqueued, staging buffers that a transfer reads when it
executes. Transfers and kernels are enqueued one (slot, role) cell at a time, so they are never
atomic to each other. `Driver` is the runtime library over it: every entry point lets the device
advance by any number of steps of either stream. `TierBooks` and `TierMoves` hold the ledger that
ties the host's bookkeeping to what is enqueued; `HotTier`, `Executor` and `BatchLru` are the tier,
its callers, and the function of the request that one admission computes. The main results are that
every kernel reads exactly the bytes of the experts the router named under every schedule, that
prefetch is invisible whatever a predictor answers, that an admission is a batch form of
least-recently-used replacement, and exactly when it succeeds.

**Replacement policies.** `Recency`, `LruCaches` and `LayeredLru` give the recency simulators one
specification, the longest suffix of the recency order that fits, and derive inclusion,
stack distances and the per-layer decomposition from it. `Schedules` and `Belady` prove that evicting
the key used farthest in the future is optimal and that the lazy heap finds that key. `Policies`,
`Arc` and `NoPolicyFixesIt` model the frequency and adaptive policies and conclude that none of them
beats the offline optimum.

**Ranges and covers.** `ExpertRanges` and `ExpertBank` cover the byte ranges of experts inside a
model file and the three backings they are read from, and `BankWeights` puts that bank under the tier, so
that what kernels read are ranges of the files; `PageRuns` and `NgramTable` the page hints of
the gather table; `Intervals` busy and idle time; `WarmBlocks` the choice of blocks to pin.

Classes, fields and loops follow the source where it updates state; ghost fields (`seen`, `ring`,
`peak`, `hot`, `stale`) only record history for the statements. Keys of the simulators are integers, numbered
in their sort order. `dfyconfig.toml` names every file.

## What the proofs found

* The loop that sheds residents to keep the prefetch reserve (`sabah/runtime/hot_tier.py:456-460`)
  drops the slot that `_evict` returns, so the slot never goes back to `free_slots`. The comments at
  178-187, 452-455 and 481-489 expect a reserve that stays available. Safety does not suffer.
  `SlotsConservedExactly` says exactly how many slots an admission loses,
  `ReserveNeverRefills` that once the free list is empty a prefetch starts no copy and moves no expert,
  and `SlotLossExample` is a run in which a request that the pool's slots would hold is refused after two
  ordinary ones.
* Because of it the guarantee is: `ensure` succeeds if and only if the distinct experts fit the slots
  not yet lost, and the clamp at line 188 bounds the loss, so a request of at most
  `n_slots - prefetch_slots` distinct experts is never refused.
* `preload` and `prefetch` only ever take slots no kernel or transfer has touched, so both are safe at
  any time, not only at start-up.
* The docstring of `belady_hits` (`tools/trace_locality.py:147`) calls the weighted result an upper
  bound for any policy. `WeightOptimalIff` proves that it is one for every trace and capacity exactly
  when all keys weigh the same.
* `nsys_gaps` prints as busy the durations added up (line 50), so overlapping kernels count twice. Busy
  and idle time are never less than the printed span (line 51), and add up to it exactly when no kernel of
  positive length starts before an earlier one has ended and the last to start also ends last (`Report`).
  For kernels at 0-10 and 5-10 it prints 15 busy and 0 idle over a span of 10 (`OverlapExample`,
  `OverlapNumbers`). Measured as a union instead, busy and idle fill the stretch up to the latest end
  (`BusyAndIdle`).
* Scoring a partition block by block (`tools/trace_locality.py:303-306`) uses all traced steps of a
  block, while the interleaved sequence and the divisors at 298 and 307 use only the common ones. The parts
  never miss less than the whole, and as little exactly when every block's requests past the common steps
  repeat keys its own cache still holds (`ScoreBothWays`); `SurplusExample` is an input on which they differ.

## Model

| member | source | states |
|---|---|---|
| Gpu.LoadReadsItsExpert | sabah/runtime/hot_tier.py:325-331 | the next kernel load of a sound device reads exactly its expert's bytes, because its copy has executed and no later copy into the cell can have |
| Gpu.StepKeeps | sabah/runtime/hot_tier.py:312-379 | executing the head of either stream keeps the device invariant and changes nothing but progress |
| Gpu.EveryScheduleIsSafe | sabah/runtime/hot_tier.py:210-222 | under every interleaving of the two streams the kernels' reads are exactly the expected ones, in order |
| Gpu.SchedulesAgree | sabah/runtime/hot_tier.py:6-12 | two schedules that executed equally much of the compute stream delivered the same bytes |
| Gpu.SomeStreamCanStep | sabah/runtime/hot_tier.py:462-476 | the two streams never wait for each other in a circle: while anything is left, some stream can execute |
| Driver.EnqueueKeeps | sabah/runtime/hot_tier.py:329-379 | enqueueing a copy over an overwritable cell, a load of a ready one, or a record or wait keeps the invariant |
| Driver.RefillKeeps | sabah/runtime/hot_tier.py:355-363 | rewriting a staging buffer is sound when no unexecuted copy still reads it |
| Driver.SeedKeeps | sabah/runtime/hot_tier.py:265-273 | a blocking copy into a cell nothing enqueued touches keeps the invariant |
| Driver.GpuRuntime.Advance | sabah/runtime/hot_tier.py:224-227 | the device may make any progress at all behind a host call, and stays sound |
| Driver.GpuRuntime.WaitEvent | sabah/runtime/hot_tier.py:417-418 | a wait captures the event's last recorded point at enqueue time |
| Driver.GpuRuntime.EventSync | sabah/runtime/hot_tier.py:279-284 | returns once everything up to the event's last record has executed |
| Driver.GpuRuntime.CopyAsync | sabah/runtime/hot_tier.py:340-348 | appends one transfer, legal only over a cell every submitted reader of which is waited for |
| TierBooks.CopyKeepsData | sabah/runtime/hot_tier.py:312-379 | a copy into a vacant slot leaves what every resident slot holds unchanged |
| TierBooks.WaitMakesOverwritable | sabah/runtime/hot_tier.py:325-331 | waiting on a block's read event makes every slot of that block overwritable |
| TierBooks.TakeKeepsOwned | sabah/runtime/hot_tier.py:287-292 | taking a pooled or a new event keeps each event in exactly one place |
| TierBooks.GiveKeepsOwned | sabah/runtime/hot_tier.py:294-295 | returning an event keeps each event in exactly one place |
| TierMoves.TierEvict | sabah/runtime/hot_tier.py:529-542 | evicting a resident, with its unfinished prefetch, keeps the ledger sound |
| TierMoves.TierAdmit | sabah/runtime/hot_tier.py:445-449 | admitting an expert whose copy is enqueued keeps the ledger sound |
| TierMoves.TierLanded | sabah/runtime/hot_tier.py:411-420 | once the compute stream waits for a transfer its event can be recycled: the slot is ready for later kernels |
| TierMoves.LoadTier | sabah/runtime/executor.py:71-95 | a kernel load from a settled resident slot is legal and keeps the ledger |
| TierMoves.MarkTier | sabah/runtime/hot_tier.py:297-310 | recording the read event after a kernel covers every reader submitted so far |
| HotTier.BlockPool.constructor | sabah/runtime/hot_tier.py:118-134 | an empty pool with every slot free |
| HotTier.HotTier.constructor | sabah/runtime/hot_tier.py:151-235 | every pool gets as many slots as the capacity covers in all blocks, at most one per expert; the reserve is what was asked for, cut to what leaves room for the live experts and no further; a sound empty ledger |
| HotTier.HotTier.AcquireStage | sabah/runtime/hot_tier.py:276-285 | hands out the next buffer of the ring, idle: no unexecuted transfer reads it |
| HotTier.HotTier.EvGet | sabah/runtime/hot_tier.py:287-292 | reuses the event returned last if any is free; the events created never exceed the peak number outstanding |
| HotTier.HotTier.StartCopy | sabah/runtime/hot_tier.py:312-379 | after it the slot holds exactly the expert's gate, up and down bytes once its event has passed, by either path |
| HotTier.HotTier.Evict | sabah/runtime/hot_tier.py:529-542 | removes the oldest unprotected resident and returns its slot, or fails with nothing changed exactly when all are protected |
| HotTier.HotTier.TouchHits | sabah/runtime/hot_tier.py:407-435 | splits a request into hits and misses, moves hits to the fresh end by last occurrence, lands their prefetches |
| HotTier.HotTier.AdmitMisses | sabah/runtime/hot_tier.py:437-450 | admits distinct misses in order into free slots and then the oldest evictable ones; fails exactly when they run out |
| HotTier.HotTier.ShedReserve | sabah/runtime/hot_tier.py:452-460 | sheds exactly the oldest unprotected residents above the soft cap, and loses their slots |
| HotTier.HotTier.DrainStalls | sabah/runtime/hot_tier.py:514-527 | drains each pending stall pair exactly once, in recording order |
| HotTier.HotTier.AwaitMisses | sabah/runtime/hot_tier.py:462-476 | the compute stream waits for each of this call's transfers, their events return to the pool, one stall pair is recorded |
| HotTier.HotTier.Ensure | sabah/runtime/hot_tier.py:382-478 | returns slots that map back to exactly the requested experts in order, if and only if they fit the usable slots; each error under exactly its condition; the pool after is the batch recency function of the pool before, its size is min(residents and newcomers that found room, max(slots - reserve, distinct requests)), and misses, landed prefetches and evictions are counted exactly |
| HotTier.HotTier.NotePinned | sabah/runtime/hot_tier.py:337-339 | a block pinned while the tier runs is copied in place from then on, and nothing else changes |
| HotTier.HotTier.Prefetch | sabah/runtime/hot_tier.py:481-512 | fills only free slots, in candidate order, evicts and moves no resident, changes no kernel's program |
| HotTier.HotTier.Preload | sabah/runtime/hot_tier.py:245-263 | seeds the first distinct absent experts that fit, in order, at any time |
| HotTier.HotTier.SubmitKernel | sabah/runtime/executor.py:71-95 | enqueues a kernel that must read the named experts' bytes, role by role |
| HotTier.HotTier.MarkSubmitted | sabah/runtime/hot_tier.py:297-310 | anchors the readers of the block and settles the tier |
| HotTier.HotTier.Drain | sabah/runtime/executor.py:49-54 | after it everything the program expects has been read |
| BatchLru.FitsExactly | sabah/runtime/hot_tier.py:437-444 | enough victims exist if and only if the distinct experts fit the slots not yet lost |
| BatchLru.ShedFits | sabah/runtime/hot_tier.py:454-460 | the shedding loop always finds a victim, so its exception branch is unreachable |
| BatchLru.EnsuredKeepsBound | sabah/runtime/hot_tier.py:178-188 | slots lost never exceed the reserve; the residents end at or below the slots beside the reserve, or at or below the distinct requests if those are more |
| BatchLru.ResidentCount | sabah/runtime/hot_tier.py:437-460 | exactly how many experts are resident and how many slots free after an admission, from the residents, free slots and distinct requests before it and the reserve |
| BatchLru.OldestLeave | sabah/runtime/hot_tier.py:529-542 | among experts not asked for, whoever was used more recently than one that stays, stays too |
| BatchLru.VictimCount | sabah/runtime/hot_tier.py:529-542 | the victims number the residents and requests before less the residents after |
| BatchLru.NoReserveNoShed | sabah/runtime/hot_tier.py:188 | without a reserve the victims number max(0, distinct misses - free slots) |
| BatchLru.EnsuredCompose | sabah/runtime/hot_tier.py:407-478 | touching, admitting and shedding compose to the batch recency function of the request |
| BatchLru.WantedResident | sabah/runtime/hot_tier.py:478 | after an admission every requested expert is resident and settled |
| BatchLru.SlotsConservedExactly | sabah/runtime/hot_tier.py:456-460 | an admission loses exactly the slots by which residents and newcomers that found room exceed both the distinct requests and the slots beside the reserve |
| BatchLru.ReserveNeverRefills | sabah/runtime/hot_tier.py:481-489 | the free list only shrinks; once empty a prefetch starts no copy and every expert keeps its slot |
| BatchLru.PrefetchedRecency | sabah/runtime/hot_tier.py:495-509 | after a prefetch the settled candidates and the newcomers stand at the fresh end in candidate order; everyone else, those in flight included, keeps the old order |
| SlotLoss.SlotLossExample | sabah/runtime/hot_tier.py:452-460 | two single-expert requests after which a request for two experts, which the two slots would hold, is refused |
| SlotLayout.PoolsFitCapacity | sabah/runtime/hot_tier.py:159-177 | for every block set and capacity the pools together fit the capacity |
| SlotLayout.SlotsAreMost | sabah/runtime/hot_tier.py:163-166 | one more slot per block would not fit the capacity, unless every expert has one already |
| SlotLayout.ReserveIsMost | sabah/runtime/hot_tier.py:181-188 | the live experts fit beside the reserve, which is cut no further than that |
| SlotLayout.GateUpDown | sabah/runtime/hot_tier.py:136-137 | inside a slot lie gate, up and down in this order, back to back |
| SlotLayout.CellsAreDisjoint | sabah/runtime/hot_tier.py:136-145 | (slot, role) ranges lie inside the pool and never overlap |
| SlotLayout.StagedEqualsDirect | sabah/runtime/hot_tier.py:340-367 | one contiguous staged transfer and the three direct ones leave the identical image |
| SlotLayout.RolesLand | sabah/runtime/hot_tier.py:340-367 | after a staged or a direct transfer every role reads back at its own cell exactly what was sent for it |
| SlotLayout.BlitReadsBack | sabah/runtime/hot_tier.py:136-137 | a cell reads back its own transfer and no other cell's changes it |
| Executor.MoEExecutor.RunBlock | sabah/runtime/executor.py:61-99 | runs exactly when the counts match and the experts fit; then appends exactly that block's reads to the program |
| Executor.MoEExecutor.UsableBound | sabah/runtime/hot_tier.py:181-188 | a request that fits beside the reserve is one every reachable pool can serve |
| Executor.MoEExecutor.RunModel | sabah/runtime/executor.py:101-111 | on success the kernels read exactly what the plan names, in order; a plan that fits beside the reserve always succeeds |
| Executor.ExpertPrefetcher.Warm | sabah/runtime/mtp_prefetch.py:132-141 | whatever the predictor answers, the program is unchanged |
| Executor.RunBlocksWithPrefetch | sabah/runtime/mtp_prefetch.py:158-175 | the same reads as the plan names, with warming between blocks |
| Executor.PrefetchIsInvisible | sabah/runtime/mtp_prefetch.py:168-170 | over the same weights, from tiers of any sizes, both runs deliver the same reads whenever both complete |
| Orders.LastOccSplit | tools/slab_replay.py:36-44 | after the last access to a key, the recency order holds exactly the distinct keys accessed since |
| Recency.KeepMaximal | tools/trace_locality.py:124-126 | what eviction keeps is the longest suffix that fits: one more entry would not |
| Recency.KeepStep | tools/trace_locality.py:116-126 | an access acts on the kept suffix alone, whatever was forgotten before |
| Recency.EvictOrder | tools/slab_replay.py:41-43 | evicting before or after inserting keeps the same suffix for every capacity from one up |
| Recency.Inclusion | tools/trace_locality.py:107-127 | a larger budget's residents contain a smaller one's at every step of every trace |
| Recency.StackDistance | tools/trace_locality.py:107-127 | an access hits if and only if its key and the distinct keys since its last access fit the budget together |
| Recency.StackDistanceCount | tools/slab_replay.py:36-44 | an access hits capacity c if and only if its key was seen and fewer than c distinct keys followed |
| LruCaches.MissedShrinks | tools/trace_locality.py:107-127 | missed weight never grows with the budget |
| LruCaches.Lru.Access | tools/slab_replay.py:36-44 | the dictionary is the recency suffix of the trace; a hit is membership before the access |
| LruCaches.ReplayLru | tools/slab_replay.py:260-263 | counts exactly the accesses outside the recency suffix |
| LruCaches.LruHits | tools/trace_locality.py:90-104 | insert-then-evict misses exactly the same accesses, and hit and missed weights add up to the whole |
| LruCaches.EvictToFit | tools/trace_locality.py:124-126 | the eviction loop leaves the longest fitting suffix and its exact weight |
| LruCaches.LruHitsBytes | tools/trace_locality.py:107-127 | missed bytes and missed count are those of the byte-budget suffix |
| LruCaches.ReuseDistances | tools/trace_locality.py:183-189 | each value points at the previous access of its key, or is -1 exactly for a first access |
| LruCaches.ShortReuseHits | tools/trace_locality.py:183-189 | a reuse distance inside the capacity is a hit |
| LayeredLru.PerLayer.Access | tools/slab_replay.py:158-174 | each layer's list is what that layer's own cache would hold after its own accesses |
| LayeredLru.Share | tools/slab_replay.py:161-163 | the share is the largest equal one: n shares fit the capacity and n larger ones do not; below a slot each it is one |
| LayeredLru.LayerFills | tools/slab_replay.py:158-174 | a layer holds min(its share, its distinct keys so far) keys, all of them its own |
| LayeredLru.LayersAreIndependent | tools/slab_replay.py:158-174 | on any interleaving the policy misses exactly what independent caches miss on each layer's own accesses |
| LayeredLru.ReplayPerLayer | tools/slab_replay.py:260-263 | counts the misses of the per-layer policy |
| LayeredLru.Interleave | tools/trace_locality.py:48-57 | lists every request of the common steps once, in order of steps, inside a step in order of blocks, inside a block as made; restricted to a block that is its first common steps |
| LayeredLru.PartitionedMisses | tools/trace_locality.py:301-306 | adds up each block's own misses at an equal share |
| LayeredLru.PartitionScoreIsExact | tools/trace_locality.py:300-309 | the block-by-block score equals the per-layer policy's misses on any sequence with those subsequences |
| LayeredLru.MissedTail | tools/trace_locality.py:90-104 | a longer trace misses no less, and no more exactly when what it adds repeats keys within the capacity |
| LayeredLru.CommonAtMostAll | tools/trace_locality.py:300-309 | over blocks traced for any numbers of steps the parts miss at least what the common steps do, with equality exactly when surplus requests repeat held keys |
| LayeredLru.ScoreBothWays | tools/trace_locality.py:48-57 | for any step counts the whole misses at most the parts, and as much if and only if every block's requests past the common steps repeat keys its own cache still holds |
| LayeredLru.SurplusExample | tools/trace_locality.py:300-309 | one block traced a step longer: two misses in execution order, three block by block, at every capacity |
| Schedules.NextUseMeans | tools/slab_replay.py:186-192 | the next use is the first later access of the key |
| Schedules.DominanceStep | tools/slab_replay.py:197-211 | whatever the other policy does at an access, farthest-in-future keeps its advantage before every deadline |
| Schedules.FarthestIsOptimal | tools/slab_replay.py:177-212 | no run that holds at most cap keys and every accessed key misses fewer accesses of any trace |
| Belady.HeapPop | tools/slab_replay.py:206 | removes a least entry |
| Belady.PopFarthest | tools/slab_replay.py:205-209 | skipping stale entries finds a resident used farthest in the future, if there is any resident |
| Belady.NextUses | tools/slab_replay.py:186-192 | the backward pass computes every next use |
| Belady.OfflineMisses | tools/slab_replay.py:177-212 | the result is attained by some run and no run misses fewer; capacity zero behaves as one |
| Belady.BeladyHits | tools/trace_locality.py:146-180 | the weights reported are those of a farthest-in-future run and add up to the whole |
| Belady.UnitWeightsAgree | tools/trace_locality.py:146-180 | with unit weights it counts the optimum |
| Belady.HeavyKeyCounterexample | tools/trace_locality.py:146-147 | two keys of different weight already defeat the weighted bound in two slots |
| Belady.WeightOptimalIff | tools/trace_locality.py:146-147 | the weighted bound holds on every trace and capacity if and only if all weights are equal |
| Policies.LruReaches | tools/slab_replay.py:29-44 | the recency policy is a run of its capacity with exactly its misses |
| Policies.Lfu.Access | tools/slab_replay.py:55-65 | a frequency is the number of accesses since the key was last loaded; a full cache gives up exactly the resident used least since it was loaded, ties by key |
| Policies.LfuTally | tools/slab_replay.py:55-65 | along a trace, a resident's frequency is how often it was accessed since the access that loaded it |
| Policies.LfuGivesUp | tools/slab_replay.py:60 | along a trace, the key a full cache gives up was accessed at most as often since its load as every other resident, and is the least key among equals |
| Policies.LfuReaches | tools/slab_replay.py:47-65 | the frequency policy, as a function of the trace, is a run of its capacity with exactly its misses |
| Policies.ReplayLfu | tools/slab_replay.py:260-263 | counts exactly the accesses the frequency policy misses |
| Policies.LayersFit | tools/slab_replay.py:158-174 | residents of all layers together fit the capacity when there is a slot for every layer |
| Policies.LayersReach | tools/slab_replay.py:158-174 | the per-layer policy is a run of the whole capacity with exactly its misses |
| Arc.AccessKeeps | tools/slab_replay.py:119-155 | every access keeps the four lists sound, in order of last access, and is a step of a run of capacity c; no list is popped empty |
| Arc.SoundMeans | tools/slab_replay.py:101-117 | disjoint lists, target within capacity, at most 2c-1 keys known, exactly min(c, known) held, no ghost before the cache fills |
| Arc.TargetMoves | tools/slab_replay.py:128-141 | the target rises exactly on a hit among the first list's ghosts when those are at least as many as the other's and it is below the capacity, falls exactly in the mirror case, and by one at most |
| Arc.HitMoves | tools/slab_replay.py:120-126 | a hit moves the key to the fresh end of the second list and changes nothing else |
| Arc.RecallGivesUp | tools/slab_replay.py:111-117 | on a remembered eviction the first list gives up its oldest resident exactly when it holds more than the new target, or as many and the key is the second list's; otherwise the second list does |
| Arc.LoadGivesUp | tools/slab_replay.py:142-155 | for a new key: nobody goes below capacity, a full list of residents alone forgets its oldest, a full first list forgets its oldest ghost, and the target decides which list's oldest resident becomes a ghost |
| Arc.DemotedKeeps | tools/slab_replay.py:111-117 | replacement gives up one resident and reorders neither list |
| Arc.AdaptiveCache.Replace | tools/slab_replay.py:111-117 | the first list's oldest resident becomes its newest ghost exactly when that list exceeds the target, or equals it and the key is the second list's; otherwise the second list's does |
| Arc.AdaptiveCache.Access | tools/slab_replay.py:119-155 | refines the specified step; a hit is residence before the access; on a remembered eviction the list that pays is the one the target names |
| Arc.ArcReaches | tools/slab_replay.py:101-155 | the adaptive policy, as a function of the trace, is a run of its capacity with exactly its misses |
| Arc.ReplayArc | tools/slab_replay.py:260-263 | counts exactly the accesses the adaptive policy misses at capacity max(2, cap) |
| NoPolicyFixesIt.LruNeverBeats | tools/slab_replay.py:29-44 | recency misses at least the optimum, on every trace and capacity from one up |
| NoPolicyFixesIt.LfuNeverBeats | tools/slab_replay.py:47-65 | so does frequency |
| NoPolicyFixesIt.ArcNeverBeats | tools/slab_replay.py:101-155 | so does the adaptive policy, from two slots up |
| NoPolicyFixesIt.PerLayerNeverBeats | tools/slab_replay.py:158-174 | so do per-layer budgets, given a slot for every layer that occurs |
| NoPolicyFixesIt.ReplayAll | tools/slab_replay.py:251-263 | each count returned is its policy's own and none is below the optimum at the same capacity |
| NoPolicyFixesIt.OptimumShrinks | tools/slab_replay.py:177-212 | the optimum never grows with the capacity |
| ExpertRanges.TablesAgree | sabah/runtime/rt.py:20-31 | a type is decodable exactly when it has a code, and then the inspector's and the runtime's geometries agree |
| ExpertRanges.AcceptedMeans | sabah/core/model_inspector.py:254-280 | accepted if and only if rows are whole decodable blocks and n experts of shape[1] rows fill the tensor exactly |
| ExpertRanges.RangesTile | sabah/runtime/expert_bank.py:99-107 | every byte of an accepted tensor belongs to exactly one expert, and no range holds another byte |
| ExpertRanges.InspectOne | sabah/core/model_inspector.py:255-284 | the checks in order decide exactly acceptance |
| ExpertRanges.Inspect | sabah/core/model_inspector.py:245-290 | contiguous if and only if there are expert tensors and all are accepted; block costs are the sums of what was measured |
| ExpertRanges.CostIsShare | sabah/core/model_inspector.py:285-289 | if all tensors are accepted, the experts at a block's cost each take exactly the bytes of the block's tensors |
| ExpertBank.AcceptedSlices | sabah/runtime/expert_bank.py:99-107 | for an accepted tensor a slice is shape[1] rows and the running read is the tensor byte for byte |
| ExpertBank.PartOfWhole | sabah/runtime/expert_bank.py:160-163 | one expert's window of the whole buffer is its slice of the file |
| ExpertBank.LoadWhole | sabah/runtime/expert_bank.py:191-210 | the running read succeeds exactly when the file holds all experts and then yields the tensor's bytes |
| ExpertBank.LoadEach | sabah/runtime/expert_bank.py:227-250 | the same into one buffer per expert |
| ExpertBank.Bank.Slice | sabah/runtime/expert_bank.py:147-170 | the same bytes from file, RAM and pinned buffers, each error under exactly its condition, and no file touched when in memory |
| ExpertBank.Bank.LoadRam | sabah/runtime/expert_bank.py:191-210 | succeeds exactly when every file is long enough, and then every block is in RAM |
| ExpertBank.Bank.PinOne | sabah/runtime/expert_bank.py:229-250 | pins exactly what is not in memory yet and reports its bytes |
| ExpertBank.Bank.LoadWarm | sabah/runtime/expert_bank.py:212-252 | succeeds exactly when the files of the named known blocks are long enough, and then they are all in memory; only what was missing is pinned, and the bytes returned are exactly those |
| ExpertBank.Bank.PinnedBlock | sabah/runtime/expert_bank.py:135-144 | true if and only if no role of the block would be read from a file |
| BankWeights.Fetch | sabah/runtime/expert_bank.py:147-170 | role 0 answers with the gate tensor's own slice of its shard, role 1 with the up tensor's, role 2 with the down tensor's, exactly when the shard reaches that far |
| BankWeights.EveryScheduleReadsTheFiles | sabah/runtime/hot_tier.py:210-222 | under every schedule each read a kernel performs delivers the file range of the expert it was submitted for |
| BankWeights.BlockReadsAre | sabah/runtime/executor.py:75-78 | a block's kernel reads its experts' slices of the gate tensor, then of the up, then of the down tensor, in router order |
| BankWeights.PlanAt | sabah/runtime/executor.py:101-111 | read by read: where in the trace each request's gate, up and down bytes stand, and which bytes of which shard they are |
| BankWeights.RunFromBank | sabah/runtime/executor.py:101-111 | on success the kernels have read exactly the file ranges of the experts the plan names, in order, each from its own gate, up or down tensor |
| BankWeights.RangeIsRows | sabah/runtime/expert_bank.py:99-107 | for an accepted tensor that range is shape[1] whole rows inside the tensor |
| PageRuns.AlignedIffTouches | sabah/runtime/ngram_prefetch.py:151-152 | rounding outward reaches exactly the pages that hold a byte of the range |
| PageRuns.Group | sabah/runtime/ngram_prefetch.py:136-146 | groups exactly the indices into non-empty blocks with a gap between any two |
| PageRuns.OnePerBlock | sabah/runtime/ngram_prefetch.py:136-146 | blocks start exactly at the indices whose predecessor was not requested |
| PageRuns.Runs | sabah/runtime/ngram_prefetch.py:124-158 | an address is in a run if and only if it is below the limit and its page holds a byte of a requested row; runs are aligned, non-empty and inside the limit |
| NgramTable.RowShape | sabah/runtime/ngram_prefetch.py:48-54 | the second axis counts the rows and the first their elements; rows of equal size fill the tensor up to less than one byte a row |
| NgramTable.Table.Prefetch | sabah/runtime/ngram_prefetch.py:264-273 | nothing but the requested rows' pages comes in, and all of them unless a hint is declined |
| NgramTable.Table.Release | sabah/runtime/ngram_prefetch.py:275-284 | only the requested rows' pages go, and of them only those stay whose release was declined |
| NgramTable.Prefetcher.Step | sabah/runtime/ngram_prefetch.py:332-342 | after every step the hinted pages are at most that step's beside those whose release was declined; exactly that step's when no hint of the step and no release was declined |
| NgramTable.Prefetcher.Close | sabah/runtime/ngram_prefetch.py:344-348 | after closing only pages whose release was declined are left |
| Intervals.UnionBusy | tools/nsys_decode.py:48-61 | the number of instants covered by at least one interval |
| Intervals.IdleTime | tools/nsys_gaps.py:53-63 | idle plus covered time is the stretch from first start to latest end; idle is the gaps added up, and gaps contain no covered instant |
| Intervals.BusyAndIdle | tools/nsys_gaps.py:53-63 | the union of the kernels and the idle time fill the stretch up to the latest end |
| Intervals.DurationsCover | tools/nsys_gaps.py:50 | durations added up are never less than the union, and equal to it if and only if no kernel of positive length starts before an earlier one ended |
| Intervals.Report | tools/nsys_gaps.py:50-67 | the printed busy and idle time are never less than the printed span, and add up to it if and only if kernels ran one at a time and the last to start also ends last |
| Intervals.OverlapExample | tools/nsys_gaps.py:50-67 | two overlapping kernels, the last to start also ending last |
| Intervals.OverlapNumbers | tools/nsys_gaps.py:50-67 | for them fifteen busy and none idle are printed over a span of ten |
| WarmBlocks.PrefixIsCheapest | sabah/planner/planner.py:181-188 | the smallest blocks cost no more than any equally many |
| Sorting.SortStable | sabah/planner/planner.py:182 | sorting keeps elements with equal keys in the order they came in |
| WarmBlocks.TakeWhileAffordable | sabah/planner/planner.py:182-188 | the loop takes exactly the longest affordable prefix |
| WarmBlocks.SelectWarmBlocks | sabah/planner/planner.py:169-189 | the choice fits, is ascending, no choice that fits holds more blocks, and a block is chosen only with every smaller one and every equal one listed before it |
| WarmBlocks.BudgetMonotone | sabah/planner/planner.py:169-189 | a larger budget chooses a superset |

## Left out

- GpuRuntime: the CUDA runtime, kernels and slab allocator (`sabah_rt.cu`) are the device of `Gpu`; a kernel is the reads it performs, and slot pointers and weights are captured at submission, so the order of the small blocking pointer upload against an earlier kernel is not modelled. `Download` assumes that the blocking copy of the output back to the host returns only after the compute stream has drained, and `RunModel` rests on that; no proof relies on a blocking copy to the device synchronising with a stream.
- Ensure: a request refused because every slot is protected leaves experts admitted part-way, as the source does; the tier is then not claimed to be valid. Bank reads, allocations and CUDA calls are assumed to succeed, and expert ids to exist in the bank.
- AcquireStage: events are named by their role (staging buffer, transfer, block reader, stall pair) instead of by handle.
- Prefetch: the predictors' own bookkeeping; the candidates are arbitrary at every call, which covers all of them.
- RunModel: the floating-point arithmetic of the experts, `accumulate`, and the input and output vectors; the model is what bytes the kernels read.
- DrainStalls: elapsed times; only which pairs are read back, and that reading back waits for them.
- Telemetry byte counters, wall-clock fields and the duplicate counter; hits, misses, requests, evictions and prefetch counts are modelled.
- Host threads: one lock covers `ensure` and `prefetch`, so host calls are atomic here.
- HotTier.HotTier.constructor: at least one block, each with a non-empty expert; without one the source divides by zero.
- Lru: a capacity of zero, where the source pops an empty dictionary; the same for the frequency policy and for `belady_hits`.
- LruHitsBytes: weights and budgets are natural numbers, where the tool adds floats; the ratios it prints are left out.
- HeapPop: `heapq` is used by its contract, a least entry of a multiset.
- UnionBusy: intervals are sorted by start only; the order among equal starts cannot change a union.
- Table: the byte counters grow by the value each hint call returns; that value is only claimed non-negative, because two runs may share a page and count it twice.
- Runs: rows of zero bytes, which only a tensor smaller than its row count has.
- Step: the n-gram index function is arbitrary, given by its result; the placeholder hash is not modelled.
- Inspect: matching tensor names against patterns, and the classification of the other tensors.
- LoadWarm: the cumulative counter, and allocation of pinned memory; a short read stops the load with what was pinned so far.
- `TwoQ`: it admits to its main list without evicting on a match in its out list, so it has no capacity bound to prove.
- `static_topk_hits`, the planner's timing estimates, trace and database readers, command lines and reports: plumbing or floating-point estimates.
