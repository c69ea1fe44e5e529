# Verified model of the zsim-nvmain core

A Dafny model of the parts of the zsim-nvmain simulator whose correctness spans several functions and
whole runs, with proofs of what they guarantee:

* **the MESI coherence hierarchy** - a directory protocol on a tree of caches of any size and depth, in
  which a request gives up the requester's lock on its way up and can be overtaken by invalidations
  (`CacheTree`, `CoherenceProtocol`, `CoherenceWave`, `CoherenceSafety`, `CoherenceTheorems`,
  `CoherenceLines`, `CoherenceEffects`, `CoherenceRequests`, `CoherenceControllers`), and **the filter
  cache** in front of an L1 (`FilterCache`);
* **the zcache array**, which inserts by walking and replaying a path of relocations (`ZCacheArray`);
* **the join/leave barrier** with a limit on running threads (`BarrierModel`, `BarrierSafety`,
  `BarrierPhases`, `BarrierClass`);
* **the DDR controller**: clock conversion, activation window, bank queues, command timing, scheduling
  events (`DdrClock`, `ActWindow`, `BankQueue`, `DdrTiming`, `DdrEarliest`, `DdrReorder`,
  `DdrController`, `DdrSafety`, `DdrFairness`, `DdrPolicy`, and the objects `DdrChannel`, `DdrClass`);
* **the fully associative LRU array** over the intrusive list (`IntrusiveList`, `LruModel`, `IdealLru`);
* **the event queue** with its adaptive events (`EventModel`, `EventSafety`, `EventTiming`,
  `EventSchedule`, `EventQueue`).

Each component has a state as a value with the source's operations as functions, an invariant proved
for every run, and classes whose methods change the state step by step, with the source's loops, and
are proved to compute those functions. Fixed-size buffers are arrays and list nodes are objects; the
queues of the DDR controller and the multimap of the event queue are sequences that are reassigned.

`dafny verify dfyconfig.toml` checks everything.

## Reading the model

* The protocol is modelled for one line address, and `CoherenceLines` shows that a run over all addresses
  is one such run for each; the caches are numbered so that a parent comes before its
  children, and cache 0 is memory. The simulator moves no data, so copies carry a version stamp:
  `latest` counts the stores to the line and `ver` is the version a copy holds. Every assertion and
  panic of the controllers clears `ok`. A requester stores M itself after a GETX; the model checks that
  it was handed M already, so that the store changes nothing. Each locked section is one step; the model allows every
  interleaving the locks allow and some more. Which line an insertion evicts is free: any cache may
  evict at any moment its locks are free.
* The filter, the LRU array and the zcache array use line address 0 for "no line", as the source does.
* Random draws, hash functions, replacement choices, frequencies and counters are parameters; a result
  holds for all their values. The zcache's replacement policy is any choice among the candidates.
* The barrier's phase callback is not modelled beyond being called; `ran`, `rejoined` and `placed` are
  kept for the statements. The DDR controller's `arrived` and `served` and the command log likewise.
* The version of a phase that an event sees is the one at the tick, which precedes the increment of the
  phase counter; insertions of a phase come before its tick.

## Where a promise does not hold as stated

* **Filter cache.** The filter's entry is cleared and the L1 changed under two separate locks. A miss on
  the same line in between re-installs it, and the filter then serves a line the L1 has lost
  (`RaceArises`). `AgreesIff` and `RunsAgreeIff` give the exact condition, and `OvertakenByMiss` shows
  that nothing but such a miss can cause it.
* **Activation window.** When a new ACT is earlier than every remaining entry, the loop re-reads a slot
  it has overwritten and leaves the window unsorted (`WrapArises`), and the channel has runs that do so
  (`WindowUnsorted`), because an ACT is dated from the arrival of its request. `SortedIff` gives the exact
  condition. The tFAW limit itself survives: `FourActivateWindow` needs no sortedness.
* **Adaptive event.** The first period is computed from the counter at insertion, but the counter also
  grows until the end of that phase. `FirstWaitIff` says exactly when the event is still called in time
  and passes its overshoot assertion; all later periods are right for every counter.
* **LRU array.** Filling a line that was never used erases the table entry of address 0.
  `AccessFollowsIff` and `ExactlyRecentIff` give the exact accesses and histories on which the array is an
  LRU stack.
* **Barrier.** The source lets a waiting thread leave that was not woken since it was listed. The
  position it remembers may then be another thread's, and its next join trips an assertion
  (`UnwokenThreadMisplaced`). `RejoinAssertsIff` says exactly when that join passes, `LeaveKeepsIff` and
  `BarrierWorksIff` exactly when the bookkeeping stays right.

## Model

| member | source | states |
|---|---|---|
| `CoherenceTheorems.NoAssertionFails` | zsim-nvmain/src/coherence_ctrls.cpp:56-366 | in every reachable state of every hierarchy, no step that can be taken trips an assertion or panic of the controllers, the requester's own check that a GETX ends in M included |
| `CoherenceTheorems.DirectoryExact` | zsim-nvmain/src/coherence_ctrls.h:186-204 | in every reachable state a child is in the sharer set iff its copy is valid, the counter is the size of the set, and the entry reads exclusive iff some child is in E or M, stale flags on empty entries notwithstanding |
| `CoherenceTheorems.SingleWriter` | zsim-nvmain/src/coherence_ctrls.cpp:94-356 | an E or M copy allows no valid copy off its own path through the tree; of two leaves, the other one is in I |
| `CoherenceTheorems.Inclusion` | zsim-nvmain/src/cache.cpp:57-87 | every cache above a valid copy holds the line tagged and valid, and above an E or M copy in E or M: the lost-inclusion panic cannot be reached |
| `CoherenceTheorems.ReadsLatest` | zsim-nvmain/src/coherence_ctrls.cpp:94-165 | a valid copy in a leaf always carries the version of the last store |
| `CoherenceTheorems.NoLostStore` | zsim-nvmain/src/coherence_ctrls.cpp:56-92 | memory is current, or some M copy has the last store and every cache above it is in E or M, although write-backs travel only as a flag |
| `CoherenceTheorems.GetDelivers` | zsim-nvmain/src/coherence_ctrls.cpp:287-356 | a GETS or GETX, raced or not, ends with the latest version and no request pending, a GETX in M, a GETS in E exactly if the parent is exclusive, no child of it is valid and E is wanted, and in S otherwise |
| `CoherenceTheorems.RacesResolved` | zsim-nvmain/src/coherence_ctrls.h:257-284 | a GET overtaken by invalidations is never skipped nor fails the race check; a PUT, overtaken or not, ends with the child in I and its tag free |
| `CoherenceTheorems.NeverStuck` | zsim-nvmain/src/coherence_ctrls.h:316-397 | while a request for the line is pending, some request can be begun, forwarded, granted or put at a cache below which no cache holds its locks, so that its invalidations wait for nobody: the locks taken for one line cannot deadlock |
| `CoherenceTheorems.MemoryAnswers` | zsim-nvmain/src/ddr_mem.cpp:243-257 | with one last-level cache, the memory controller's switch over the request type gives the same state as the directory rules |
| `CoherenceEffects.GrantChanges` | zsim-nvmain/src/coherence_ctrls.cpp:287-356 | what a grant does to every other cache: after a GETX all copies below the parent but the requester's own subtree are invalid, after a GETS exclusive ones are S and nobody loses the line, the parent is in M exactly if it was or a modified copy lay below, and no other cache or request changes |
| `CoherenceEffects.EvictChanges` | zsim-nvmain/src/coherence_ctrls.h:348-353 | an eviction invalidates every cache below and no other; the cache itself frees its tag, or keeps the line and sends a PUTX exactly if it or a cache below was modified, else a PUTS |
| `CoherenceEffects.PutChanges` | zsim-nvmain/src/coherence_ctrls.h:355-388 | a PUT takes the line from its sender, a modified one goes to the parent with the last store, and no other cache is touched |
| `CoherenceRequests.RequestHonoured` | zsim-nvmain/src/coherence_ctrls.cpp:94-165 | over every run: the GET that a core or cache made is the one it is granted, however long it takes and whatever overtakes it: M for a GETX, E or S for a GETS, with the last store |
| `CoherenceRequests.RequestCarried` | zsim-nvmain/src/coherence_ctrls.cpp:113-143 | over every run: when the parent has to ask in turn, it asks for just what the child asked for |
| `CoherenceLines.RunProjects` | zsim-nvmain/src/cache.cpp:57-118 | a run of the whole hierarchy, over all line addresses and with bounded tag arrays, is for each address a run of the protocol of that line |
| `CoherenceLines.LinesReachable` | zsim-nvmain/src/cache.cpp:57-118 | every line of a reachable hierarchy is a reachable line, so all results about one line hold of all lines at once |
| `CoherenceLines.RunLifts` | zsim-nvmain/src/cache.cpp:57-118 | conversely every run of one line is a run of the hierarchy if each cache has room for a line |
| `CoherenceLines.CacheInclusion` | zsim-nvmain/src/cache.cpp:64-79 | inclusion of whole caches: all lines held in or below a cache have a tag there, so together they are never more lines than that cache has room for |
| `CoherenceWave.SendInvalidatesSweeps` | zsim-nvmain/src/coherence_ctrls.cpp:235-273 | one call invalidates or downgrades the whole subtree of every listed child and nothing else, empties or un-flags the entry, and both counting assertions hold |
| `CoherenceWave.InvalidateTouches` | zsim-nvmain/src/cache.cpp:120-134 | one recursive invalidation takes every copy of a subtree to I (INV) or S (INVX), and raises the write-back flag, with the latest data, iff a modified copy was there |
| `CoherenceWave.FlagBelow` | zsim-nvmain/src/coherence_ctrls.cpp:176-208 | the write-back flag that reaches a cache says exactly whether a modified copy lies at or below it |
| `CoherenceWave.InvalidBelow` | zsim-nvmain/src/coherence_ctrls.cpp:358-366 | below an invalid cache every copy is invalid and every directory entry empty, so an invalidation may stop there |
| `CoherenceSafety.GrantEKeeps` | zsim-nvmain/src/coherence_ctrls.cpp:287-356 | granting E to the only sharer keeps the global invariant |
| `CoherenceSafety.GrantSKeeps` | zsim-nvmain/src/coherence_ctrls.cpp:287-356 | granting S, with the downgrade of an exclusive owner and the write-back it raises, keeps the invariant |
| `CoherenceSafety.GrantXKeeps` | zsim-nvmain/src/coherence_ctrls.cpp:287-356 | granting M, as an upgrade or not, with the invalidation of all others, keeps the invariant |
| `CoherenceSafety.EvictKeeps` | zsim-nvmain/src/coherence_ctrls.h:348-353 | evicting at any cache, children first and write-back last, keeps the invariant |
| `CoherenceSafety.PutFits` | zsim-nvmain/src/coherence_ctrls.h:257-284 | a PUT that survives the race check finds its sender listed, exclusively if dirty, at a parent that holds the line |
| `CoherenceSafety.PutKeeps` | zsim-nvmain/src/coherence_ctrls.h:355-388 | handling a PUTS or PUTX, skipped or demoted by a race or not, keeps the invariant |
| `CoherenceSafety.StoreKeeps` | zsim-nvmain/src/coherence_ctrls.cpp:94-165 | a silent E to M upgrade and its store keep the invariant, with the latest version now in that leaf |
| `CoherenceSafety.RequestKeeps` | zsim-nvmain/src/coherence_ctrls.h:316-346 | issuing, starting and forwarding a request keep the invariant |
| `CoherenceSafety.ExclusiveAlone` | zsim-nvmain/src/coherence_ctrls.cpp:94-356 | an exclusive copy and any valid copy lie on one path of the tree |
| `CoherenceSafety.RunKeeps` | zsim-nvmain/src/coherence_ctrls.cpp:56-366 | the invariant holds after any interleaving of any number of steps of any caches |
| `CoherenceControllers.Hierarchy.constructor` | zsim-nvmain/src/coherence_ctrls.h:186-204 | a fresh array of caches is the initial state of the protocol |
| `CoherenceControllers.Hierarchy.Invalidate` | zsim-nvmain/src/cache.cpp:120-134 | the recursive method over mutable state computes the protocol's invalidation, its flag and its data |
| `CoherenceControllers.Hierarchy.SendInvalidates` | zsim-nvmain/src/coherence_ctrls.cpp:235-273 | the loop over the children computes the protocol's sweep |
| `CoherenceControllers.Hierarchy.StartGetX` | zsim-nvmain/src/coherence_ctrls.cpp:331-338 | the parent counts as written and a mere upgrade leaves the sharer list, as the protocol has it |
| `CoherenceControllers.Hierarchy.ProcessGetX` | zsim-nvmain/src/coherence_ctrls.cpp:287-356 | claim, sweep, write-back and the new entry, in place, are the protocol's exclusive grant |
| `CoherenceControllers.Hierarchy.ProcessGetS` | zsim-nvmain/src/coherence_ctrls.cpp:287-356 | the in-place E or S grant is the protocol's shared grant |
| `CoherenceControllers.Hierarchy.ProcessPut` | zsim-nvmain/src/coherence_ctrls.h:355-388 | the in-place PUT is the protocol's |
| `CoherenceControllers.Hierarchy.Writeback` | zsim-nvmain/src/coherence_ctrls.h:257-284 | race check, PUT and the final check on the sender are the protocol's Put step |
| `CoherenceControllers.Hierarchy.ProcessEviction` | zsim-nvmain/src/coherence_ctrls.cpp:56-92 | children invalidated, flag absorbed and PUT sent are the protocol's Evict step |
| `FilterCache.HitsAreAllowed` | zsim-nvmain/src/filter_cache.h:105-142 | while the filter agrees with the L1, a load hit means the line is valid there and a store hit that it is in M |
| `FilterCache.AgreesIff` | zsim-nvmain/src/filter_cache.h:178-224 | each step keeps the agreement if and only if it is not the second half of an invalidation that finds the filter serving its line, or about to |
| `FilterCache.UninterruptedIsFine` | zsim-nvmain/src/filter_cache.h:207-218 | an invalidation whose two locked halves are not interrupted keeps the agreement |
| `FilterCache.RunsAgreeIff` | zsim-nvmain/src/filter_cache.h:105-224 | over every run the filter agrees with the L1 at all times if and only if no invalidation is overtaken |
| `FilterCache.OvertakenByMiss` | zsim-nvmain/src/filter_cache.h:207-218 | from a state without invalidations under way, an overtaken one has its first half at some earlier step and a miss on the same line between its two halves |
| `FilterCache.RaceArises` | zsim-nvmain/src/filter_cache.h:207-218 | for every valid line in every idle state there is a run in which a load slips between the two halves and the filter then serves the line the L1 has lost |
| `FilterCache.MissThenHits` | zsim-nvmain/src/filter_cache.h:178-203 | after a miss the line is served from the filter, to loads always and to stores exactly after a store |
| `FilterCache.HitsStayIff` | zsim-nvmain/src/filter_cache.h:105-224 | a line is displaced from the filter exactly by an invalidation of it, a miss that takes its set, or a context switch |
| `FilterCache.StoreServesOn` | zsim-nvmain/src/filter_cache.h:105-203 | over every run a line brought in by a store serves loads and stores until it is displaced or missed by a load |
| `FilterCache.LinesAfter` | zsim-nvmain/src/filter_cache.h:178-218 | which lines of the L1 a miss and an invalidation change, and to what |
| `FilterCache.FilterArray.Replace` | zsim-nvmain/src/filter_cache.h:178-203 | the entry written in place is the one of the model's commit step |
| `FilterCache.FilterArray.Invalidate` | zsim-nvmain/src/filter_cache.h:207-215 | the entry cleared in place is the one of the first half of the model's invalidation |
| `FilterCache.FilterArray.SwitchContext` | zsim-nvmain/src/filter_cache.h:220-224 | the loop empties every entry |
| `ZCacheArray.HashedShapeValid` | zsim-nvmain/src/cache_arrays.cpp:70-88 | way w and address a give position w times numSets plus the hash, so the positions of different ways never meet |
| `ZCacheArray.ParentFirst` | zsim-nvmain/src/cache_arrays.cpp:136-172 | the parent of a first occurrence in the walk is itself a first occurrence, even when the walk runs in a loop |
| `ZCacheArray.OneWayOnly` | zsim-nvmain/src/cache_arrays.cpp:141-150 | a line sits in only one of its ways, so each expansion adds a candidate for every other way |
| `ZCacheArray.WholeGrows` | zsim-nvmain/src/cache_arrays.cpp:136-153 | an expansion begun while candidates were wanted and all lines met were held keeps the walk exact |
| `ZCacheArray.FreeSeedEnds` | zsim-nvmain/src/cache_arrays.cpp:127-137 | a free line among the seeds ends the walk at the seeds |
| `ZCacheArray.DepthIsQuotient` | zsim-nvmain/src/cache_arrays.cpp:87-87 | the deepest path to candidate i has i / ways + 1 positions, the bound behind the size of the swap array |
| `ZCacheArray.PathStep` | zsim-nvmain/src/cache_arrays.cpp:178-184 | each step to the parent extends a path of distinct positions whose lines may each move into the one before |
| `ZCacheArray.MoveKeeps` | zsim-nvmain/src/cache_arrays.cpp:196-199 | moving a line into the hole keeps every other line at one of its own positions and leaves the hole where the line was |
| `ZCacheArray.FillKeeps` | zsim-nvmain/src/cache_arrays.cpp:200-205 | filling the last hole restores the permutation and the placement of every line |
| `ZCacheArray.StoredIsFound` | zsim-nvmain/src/cache_arrays.cpp:98-116 | every stored address is found at the position of one of its ways |
| `ZCacheArray.ZArray.constructor` | zsim-nvmain/src/cache_arrays.cpp:70-88 | the linear initial mapping is valid, all lines are empty, and the swap array has cands / ways + 2 slots |
| `ZCacheArray.ZArray.Lookup` | zsim-nvmain/src/cache_arrays.cpp:98-116 | returns a line holding the address, misses only if no line holds it, panics iff the address is 0 |
| `ZCacheArray.ZArray.Seed` | zsim-nvmain/src/cache_arrays.cpp:127-134 | the seeds are a walk and the validity flag is exact |
| `ZCacheArray.ZArray.ExpandWay` | zsim-nvmain/src/cache_arrays.cpp:141-150 | adds the position of one way unless the fringe line sits there |
| `ZCacheArray.ZArray.Expand` | zsim-nvmain/src/cache_arrays.cpp:136-152 | a whole expansion adds at least one candidate, keeps the walk and stays inside the buffer |
| `ZCacheArray.ZArray.Walk` | zsim-nvmain/src/cache_arrays.cpp:118-156 | the breadth-first walk expands candidates whole, in order and way by way; it begins an expansion exactly while fewer than cands candidates are there and no free line has been met; it stays inside cands + ways entries |
| `ZCacheArray.ZArray.PickVictim` | zsim-nvmain/src/cache_arrays.cpp:160-173 | finds the minimum index in the walk of the very line the policy has picked |
| `ZCacheArray.ZArray.FillSwapArray` | zsim-nvmain/src/cache_arrays.cpp:178-185 | the recorded positions are those of the victim and its parents up to a seed, pairwise distinct and no longer than the bound |
| `ZCacheArray.ZArray.Preinsert` | zsim-nvmain/src/cache_arrays.cpp:118-191 | changes no line; the victim is the policy's choice among the first cands entries of a walk that stopped exactly where it had to, and the planned path leads from its first occurrence to a seed and fits the swap array |
| `ZCacheArray.ZArray.Move` | zsim-nvmain/src/cache_arrays.cpp:196-199 | one assignment of the loop, with the hole moving along |
| `ZCacheArray.ZArray.MoveLines` | zsim-nvmain/src/cache_arrays.cpp:196-199 | after the loop each position of the path has the line of the next one, the hole is at the last, and no position off the path has changed |
| `ZCacheArray.ZArray.Fill` | zsim-nvmain/src/cache_arrays.cpp:200-205 | the new line takes the last position and the new address |
| `ZCacheArray.ZArray.Postinsert` | zsim-nvmain/src/cache_arrays.cpp:193-208 | replaying the plan keeps the array valid, shifts each line of the path to the position before it, puts the new line at the end, and changes no other position and no other address |
| `ZCacheArray.ZArray.Insert` | zsim-nvmain/src/cache.cpp:65-77 | after any insertion, for any policy: the walk stopped exactly where it had to, the victim is the policy's choice, its path was replayed, the mapping is a permutation with every line at one of its positions, the new address has the victim's line, the victim is gone, every other address keeps its line |
| `BarrierSafety.CheckRunListKeeps` | zsim-nvmain/src/barrier.h:256-273 | threads are woken, in list order, until the limit is reached or the list is scanned, and somebody runs if anybody ahead was waiting |
| `BarrierSafety.PhaseEndsWhenAllRan` | zsim-nvmain/src/barrier.h:201-254 | when a phase ends nobody runs and every listed thread that has not left ran in it, exactly once unless it left and rejoined |
| `BarrierSafety.PhaseEndsInRun` | zsim-nvmain/src/barrier.h:201-279 | an operation of a run ends at most one phase, a join none; whenever it ends one, nobody runs at that moment and every listed thread that has not left has had its turn, exactly one unless it rejoined |
| `BarrierSafety.AllLeft` | zsim-nvmain/src/barrier.h:203-206 | the early return is taken iff every listed thread has left |
| `BarrierSafety.CompactKeeps` | zsim-nvmain/src/barrier.h:217-232 | the cleanup removes exactly the threads that left, so its size assertion holds |
| `BarrierSafety.ShuffleKeeps` | zsim-nvmain/src/barrier.h:239-252 | whatever is drawn, the shuffle keeps the list free of duplicates, complete, and its remembered positions right |
| `BarrierSafety.EndPhaseKeeps` | zsim-nvmain/src/barrier.h:201-254 | the end of a phase keeps all bookkeeping, and starts a phase in which nobody has run |
| `BarrierSafety.TryWakeKeeps` | zsim-nvmain/src/barrier.h:275-279 | afterwards the barrier has settled: the limit is reached or the list is scanned, and somebody runs if anybody waits; the phase count grows by at most one |
| `BarrierSafety.LeftIsWhereItThinks` | zsim-nvmain/src/barrier.h:132-137 | the position a thread that left remembers is its position on the list, so the assertion of join holds |
| `BarrierSafety.JoinKeeps` | zsim-nvmain/src/barrier.h:124-152 | joining keeps the bookkeeping, settles, and never ends a phase |
| `BarrierSafety.SyncKeeps` | zsim-nvmain/src/barrier.h:181-188 | a sync keeps the bookkeeping and settles |
| `BarrierSafety.LeaveKeepsIff` | zsim-nvmain/src/barrier.h:166-178 | leaving keeps the bookkeeping if and only if the thread runs or the position it remembers is its own |
| `BarrierSafety.RejoinAssertsIff` | zsim-nvmain/src/barrier.h:126-145 | after a waiting thread left, its next join passes the assertion if and only if the scan has not reached the position it remembers or that position is its own |
| `BarrierSafety.WokenKnowsPlace` | zsim-nvmain/src/barrier.h:256-268 | every listed thread woken or moved since it was listed remembers its own position |
| `BarrierSafety.BarrierWorks` | zsim-nvmain/src/barrier.h:105-279 | after any run of joins, leaves and syncs of any number of threads, in which no waiting thread leaves that does not know its place: no assertion has failed, the list is exactly the threads not offline, the counters are true counts, the limit is respected, and the barrier does not stall |
| `BarrierSafety.BarrierWorksIff` | zsim-nvmain/src/barrier.h:105-279 | over whole runs the bookkeeping is right in every state if and only if every waiting thread that leaves knows its place |
| `BarrierSafety.UnwokenThreadMisplaced` | zsim-nvmain/src/barrier.h:126-146 | a run of two joins, a leave and a join, each allowed by its own check, that trips the assertion inside join |
| `BarrierPhases.CleanupWhen` | zsim-nvmain/src/barrier.h:212-232 | every 32nd phase end puts exactly the threads that left offline and off the list; no other phase end changes who is listed |
| `BarrierPhases.NoneLeftListed` | zsim-nvmain/src/barrier.h:212-232 | after such a phase end no listed thread has left and the counter is 0 |
| `BarrierPhases.OrderKept` | zsim-nvmain/src/barrier.h:239-239 | a list that fits within the limit keeps its order |
| `BarrierPhases.EveryOrderDrawn` | zsim-nvmain/src/barrier.h:241-251 | every order of the list is the result of some draws of the Fisher-Yates loop |
| `BarrierPhases.EveryOrderAfterPhase` | zsim-nvmain/src/barrier.h:201-254 | so a list longer than the limit can come out of a phase end in every order |
| `BarrierClass.Barrier.constructor` | zsim-nvmain/src/barrier.h:105-119 | an empty list and all threads offline |
| `BarrierClass.Barrier.CheckRunList` | zsim-nvmain/src/barrier.h:256-273 | the loop over the arrays computes the model's wake-ups |
| `BarrierClass.Barrier.DropLeft` | zsim-nvmain/src/barrier.h:217-231 | the compaction in place computes the model's |
| `BarrierClass.Barrier.ShuffleList` | zsim-nvmain/src/barrier.h:241-251 | the Fisher-Yates loop in place computes the model's shuffle |
| `BarrierClass.Barrier.CheckEndPhase` | zsim-nvmain/src/barrier.h:201-254 | the end of a phase in place is the model's |
| `BarrierClass.Barrier.TryWakeNext` | zsim-nvmain/src/barrier.h:275-279 | the three calls in sequence are the model's step |
| `BarrierClass.Barrier.Join` | zsim-nvmain/src/barrier.h:124-152 | as the model joins; from good bookkeeping no phase ends and the barrier settles |
| `BarrierClass.Barrier.Leave` | zsim-nvmain/src/barrier.h:166-178 | as the model leaves; good bookkeeping survives if and only if the thread runs or knows its place |
| `BarrierClass.Barrier.Sync` | zsim-nvmain/src/barrier.h:181-188 | as the model syncs; from good bookkeeping the barrier settles |
| `BarrierClass.Barrier.RescheduleAt` | zsim-nvmain/src/barrier.h:133-145 | the exchange in place is the model's, whether or not the remembered position is the thread's own |
| `BarrierClass.RoomFor` | zsim-nvmain/src/barrier.h:128-128 | a thread that is offline always finds room on the run list |
| `DdrClock.RoundTrip` | zsim-nvmain/src/ddr_mem.h:250-258 | for 2 memFreq < sysFreq, the system cycle chosen for a memory cycle translates back to that memory cycle |
| `DdrClock.MatchingIsMiddle` | zsim-nvmain/src/ddr_mem.h:255-258 | it is the last system cycle not past the middle of the memory cycle |
| `DdrClock.MemToSysIs` | zsim-nvmain/src/ddr_mem.h:251-251 | a memory cycle translates to the last system cycle not past its end, which is in one of the next two memory cycles |
| `DdrClock.SysToMemMonotone` | zsim-nvmain/src/ddr_mem.h:250-250 | later system cycles never translate to earlier memory cycles |
| `DdrClock.EventArrivesOnTime` | zsim-nvmain/src/ddr_mem.cpp:336-338 | an event queued for a memory cycle not yet past, even if clamped to now, arrives in exactly that memory cycle and never at cycle 0 |
| `DdrClock.ResponseNotPast` | zsim-nvmain/src/ddr_mem.cpp:606-607 | a response ready at a memory cycle not before now is never due before now, so the assertion on its cycle holds |
| `ActWindow.SortedIff` | zsim-nvmain/src/ddr_mem.h:59-74 | the window stays sorted if and only if the new ACT is no earlier than its second-oldest entry |
| `ActWindow.WrapArises` | zsim-nvmain/src/ddr_mem.h:65-71 | ACTs that each waited for their turn can arrive so that the window is left unsorted: a full window in order and then one ACT earlier than all but its oldest entry |
| `ActWindow.CountBelowAdded` | zsim-nvmain/src/ddr_mem.h:59-74 | wherever the new ACT is put, wrapped or not, the window loses its oldest entry and gains the new one |
| `ActWindow.FourActivateWindow` | zsim-nvmain/src/ddr_mem.h:43-79 | in every run, sorted window or not, at most n ACTs of a rank fall into any tFAW consecutive cycles |
| `ActWindow.Window.constructor` | zsim-nvmain/src/ddr_mem.h:49-53 | the window starts with n zeros |
| `ActWindow.Window.MinActCycle` | zsim-nvmain/src/ddr_mem.h:55-57 | reads the oldest entry of the circular buffer |
| `ActWindow.Window.MakeRoom` | zsim-nvmain/src/ddr_mem.h:65-70 | the shifting loop over the circular buffer leaves the slot at which the insertion completes, in the wrap case as well |
| `ActWindow.Window.AddActivation` | zsim-nvmain/src/ddr_mem.h:59-74 | the insertion into the circular buffer is the model's, wrap case included |
| `BankQueue.FindSlot` | zsim-nvmain/src/ddr_mem.cpp:384-419 | the loop from the back of the bank list finds the slot and the hit number of the specification |
| `BankQueue.HitGoesBehind` | zsim-nvmain/src/ddr_mem.cpp:384-398 | a request to a queued row goes right behind the last request to it with the next number, or last with number 0 if that one is at the limit |
| `BankQueue.MissGoesLast` | zsim-nvmain/src/ddr_mem.cpp:403-422 | a request to a row that is not queued goes last with number 0, unless the list is empty and the row open below the limit, whose count it then continues |
| `BankQueue.QueuedKeepsRuns` | zsim-nvmain/src/ddr_mem.cpp:384-419 | each list stays a concatenation of same-row runs numbered consecutively up to the limit |
| `BankQueue.ServedKeepsRuns` | zsim-nvmain/src/ddr_mem.cpp:627-629 | serving the front keeps the runs |
| `BankQueue.AheadQueued` | zsim-nvmain/src/ddr_mem.cpp:384-419 | a new request never increases what may be served before one that is already queued |
| `BankQueue.WaitingBounded` | zsim-nvmain/src/ddr_mem.cpp:345-419 | however requests keep arriving, services plus what remains ahead never exceed what was ahead at arrival |
| `BankQueue.BoundedBypass` | zsim-nvmain/src/ddr_mem.cpp:519-534 | a request is preceded by at most (rowHitLimit + 1) services per run ahead at its arrival plus those before it in its own run |
| `DdrFairness.RunTrace` | zsim-nvmain/src/ddr_mem.cpp:296-656 | every run of the controller has a trace of its states |
| `DdrFairness.HeadsDiffer` | zsim-nvmain/src/ddr_mem.cpp:516-534 | two bank lists never start with the same request, so a service belongs to one list |
| `DdrFairness.RunFollows` | zsim-nvmain/src/ddr_mem.cpp:296-632 | while a request waits, every run of requests, events and refreshes is for its bank list a run of that list alone, served as often |
| `DdrFairness.WaitBounded` | zsim-nvmain/src/ddr_mem.cpp:345-632 | in every run of the controller, a queued request that has not been served has seen at most (rowHitLimit + 1) services of its list per run ahead of its own plus those before it in its own run |
| `DdrFairness.StartWaitBounded` | zsim-nvmain/src/ddr_mem.cpp:345-632 | the same for every run from power-on and every moment in it |
| `DdrTiming.ActivateOpens` | zsim-nvmain/src/ddr_mem.cpp:553-579 | precharge and activate leave the wanted row open, with an ACT that respects every earlier command |
| `DdrTiming.AccessKeeps` | zsim-nvmain/src/ddr_mem.cpp:581-599 | the column command respects every earlier command and finds its row open |
| `DdrTiming.IssueKeeps` | zsim-nvmain/src/ddr_mem.cpp:547-599 | issuing any request keeps the record from which all timing rules follow |
| `DdrTiming.IssueAssertsHold` | zsim-nvmain/src/ddr_mem.cpp:597-597 | the column commands of a bank are issued in strictly increasing cycles, and no ACT violates the activation window |
| `DdrTiming.RefreshKeeps` | zsim-nvmain/src/ddr_mem.cpp:634-653 | a refresh follows every earlier command and delays every later ACT to its completion |
| `DdrTiming.AlwaysInTime` | zsim-nvmain/src/ddr_mem.cpp:470-598 | in every run every pair of commands keeps its distance: ACT to ACT of a bank tRAS + tRP, ACT to column tRCD, ACT after refresh completion, bursts disjoint, reads tWTR after a write burst; each column command finds its row open and each ACT finds it not open, with rows closed by refresh and by auto-precharge |
| `DdrTiming.FourActivates` | zsim-nvmain/src/ddr_mem.h:55-74 | in every run no more than four ACTs of one rank in any tFAW cycles |
| `DdrReorder.EveryOrderArises` | zsim-nvmain/src/ddr_mem.cpp:553-579 | every sequence of ACT cycles that respects the activation window, in whatever order, is that of a rank in some run of the channel |
| `DdrReorder.WindowUnsorted` | zsim-nvmain/src/ddr_mem.h:59-74 | a run of five requests, the last of which arrived before the second, leaves the window of the channel unsorted |
| `DdrEarliest.HitIsEarliest` | zsim-nvmain/src/ddr_mem.cpp:550-583 | the column command of a request whose row is open is issued at the first cycle that the attempt and every earlier command allow |
| `DdrEarliest.MissIsEarliest` | zsim-nvmain/src/ddr_mem.cpp:553-583 | another request's row is activated at the first cycle that its arrival, the precharge, the activation window and every earlier command allow, and its column command follows at the first cycle allowed after that |
| `DdrEarliest.RefreshIsEarliest` | zsim-nvmain/src/ddr_mem.cpp:634-653 | a refresh is complete at the first cycle that its call and the recovery of every bank from every command allow |
| `DdrEarliest.AlwaysTight` | zsim-nvmain/src/ddr_mem.cpp:547-653 | in every run each cycle that a bank or the bus remembers is owed to a command in the log |
| `DdrEarliest.HitReadyWhen` | zsim-nvmain/src/ddr_mem.cpp:470-489 | a request whose row is open is ready exactly when it has arrived and after the last column command of its bank |
| `DdrEarliest.MissReadyWhen` | zsim-nvmain/src/ddr_mem.cpp:470-489 | another one is ready exactly tRCD after the first cycle at which its row may be activated |
| `DdrSafety.AddOk` | zsim-nvmain/src/ddr_mem.cpp:367-419 | queueing puts a request into its queue and exactly one bank list |
| `DdrSafety.RemoveOk` | zsim-nvmain/src/ddr_mem.cpp:627-629 | issuing takes it out of both |
| `DdrSafety.HasFront` | zsim-nvmain/src/ddr_mem.cpp:516-534 | a queue that is not empty has a request at the front of a bank list, so the scan finds a cycle to retry at |
| `DdrSafety.ArrangeOk` | zsim-nvmain/src/ddr_mem.cpp:325-339 | queueing a new event annuls the due one, keeps one live event, and the new one is on time |
| `DdrSafety.RecycleOk` | zsim-nvmain/src/ddr_mem.cpp:463-468 | an event is recycled only when it is not the due one, so the assertion holds |
| `DdrSafety.EnqueueKeeps` | zsim-nvmain/src/ddr_mem.cpp:296-343 | a request entering, overflowed or not, keeps the controller's invariant |
| `DdrSafety.TryScheduleOk` | zsim-nvmain/src/ddr_mem.cpp:506-607 | no assertion of an attempt fails: the scanned queue is not empty, command order and activation window are respected, no read is answered in the past |
| `DdrSafety.TryScheduleCore` | zsim-nvmain/src/ddr_mem.cpp:491-632 | a scheduling attempt loses and duplicates no request |
| `DdrSafety.TrySchedulePlanned` | zsim-nvmain/src/ddr_mem.cpp:491-632 | it reports a retry cycle not before now if requests remain, and none otherwise |
| `DdrSafety.AdmitKeeps` | zsim-nvmain/src/ddr_mem.cpp:432-450 | letting an overflowed request in keeps the queues right and never leaves waiting requests unplanned |
| `DdrSafety.TickKeeps` | zsim-nvmain/src/ddr_mem.cpp:426-461 | a tick in its cycle passes its assertions and plans the next one iff requests remain |
| `DdrSafety.FireKeeps` | zsim-nvmain/src/ddr_mem.cpp:114-132 | an event, live or annulled, keeps the invariant when it fires |
| `DdrSafety.RefreshKeeps` | zsim-nvmain/src/ddr_mem.cpp:634-656 | a refresh keeps the invariant |
| `DdrSafety.ControllerWorks` | zsim-nvmain/src/ddr_mem.cpp:296-632 | in every run of requests, events and refreshes: no request is lost or served twice, no assertion fails, an event is due iff requests wait, it is the only live one, and it fires in its memory cycle |
| `DdrPolicy.Attempt` | zsim-nvmain/src/ddr_mem.cpp:500-547 | an attempt serves the first request, in the order of arrival, of the side whose turn it is that heads its bank list and is ready, and none if the bus is busy or none is ready; which side has the turn, by the lengths of the queues and the last command |
| `DdrPolicy.WhoIsServed` | zsim-nvmain/src/ddr_mem.cpp:509-513 | the id served comes from the write queue if more than 3/4 of it is taken, if the last command was a write and more than 1/4 is, or if there are no reads, and from the read queue otherwise |
| `DdrPolicy.WritesDrain` | zsim-nvmain/src/ddr_mem.cpp:509-511 | in every run, once a write was served from the write queue everything served comes from there until an attempt finds at most 1/4 of it taken |
| `DdrPolicy.EarliestIs` | zsim-nvmain/src/ddr_mem.cpp:519-534 | the retry cycle of the scan is the minimum over the heads of the bank lists |
| `DdrPolicy.NextAttempt` | zsim-nvmain/src/ddr_mem.cpp:500-543 | no attempt before the reported cycle would serve anybody; it is the first cycle at which the bus is free or, with a free bus, the first at which a request can go |
| `DdrPolicy.NumberRemembered` | zsim-nvmain/src/ddr_mem.cpp:597-599 | in every run a bank counts row hits on from the number of the request it served last, from either side |
| `DdrPolicy.EnqueuePlace` | zsim-nvmain/src/ddr_mem.cpp:296-320 | a new request overflows exactly if a queue is full; otherwise it goes last into the queue of its side and in its place into its bank list |
| `DdrPolicy.OldestAdmitted` | zsim-nvmain/src/ddr_mem.cpp:432-438 | the request that overflowed first is let in first, exactly if both queues have room |
| `DdrPolicy.EnqueueWakes` | zsim-nvmain/src/ddr_mem.cpp:322-326 | a request that is alone in its bank list brings the next attempt forward to when it can go, and no other changes the plan |
| `DdrPolicy.AdmissionWakes` | zsim-nvmain/src/ddr_mem.cpp:440-448 | a request let in and alone in its bank list brings the next attempt forward to when the bus is nearly free |
| `DdrPolicy.EnqueueDueWhen` | zsim-nvmain/src/ddr_mem.cpp:326-339 | a new plan is an event in the middle of its memory cycle, or now if that is past |
| `DdrPolicy.FireDueWhen` | zsim-nvmain/src/ddr_mem.cpp:452-461 | so is the plan an attempt leaves; without one nothing is due |
| `DdrPolicy.NoCycleWasted` | zsim-nvmain/src/ddr_mem.cpp:470-653 | in every run of the controller each command of each request served and each refresh is at the first cycle allowed |
| `DdrPolicy.StartReady` | zsim-nvmain/src/ddr_mem.cpp:153-180 | what these results ask of the first state holds at power-on |
| `DdrClass.DdrMemory.constructor` | zsim-nvmain/src/ddr_mem.cpp:153-180 | an idle controller |
| `DdrClass.DdrMemory.QueueRequest` | zsim-nvmain/src/ddr_mem.cpp:345-419 | queues as the model does and tells whether the request became first of its bank |
| `DdrClass.DdrMemory.ArrangeEvent` | zsim-nvmain/src/ddr_mem.cpp:326-338 | annulling the due event, taking a free or a new one and queueing it, step by step, are the model's |
| `DdrClass.DdrMemory.EnqueueRequest` | zsim-nvmain/src/ddr_mem.cpp:296-343 | in place, the model's entry of a request |
| `DdrClass.DdrMemory.Scan` | zsim-nvmain/src/ddr_mem.cpp:516-534 | the loop finds the first request that can issue, or else the earliest cycle at which one can |
| `DdrClass.DdrMemory.Choose` | zsim-nvmain/src/ddr_mem.cpp:506-543 | the early returns, the write priority and the scan give the model's choice or retry cycle |
| `DdrClass.DdrMemory.IssueChosen` | zsim-nvmain/src/ddr_mem.cpp:547-629 | the commands through the channel and the removal from queue and bank list are the model's issue |
| `DdrClass.DdrMemory.TryScheduleOne` | zsim-nvmain/src/ddr_mem.cpp:491-632 | a whole attempt in place is the model's |
| `DdrClass.DdrMemory.AdmitOne` | zsim-nvmain/src/ddr_mem.cpp:432-450 | lets one overflowed request in as the model does |
| `DdrClass.DdrMemory.TickAt` | zsim-nvmain/src/ddr_mem.cpp:426-461 | a whole tick in place is the model's |
| `DdrClass.DdrMemory.Simulate` | zsim-nvmain/src/ddr_mem.cpp:114-132 | the event's state machine in place is the model's |
| `DdrClass.DdrMemory.RefreshNow` | zsim-nvmain/src/ddr_mem.cpp:634-656 | a refresh in place is the model's |
| `DdrChannel.BankedChannel.constructor` | zsim-nvmain/src/ddr_mem.cpp:174-180 | idle banks, a window of four for each rank, and a bus that can be used |
| `DdrChannel.BankedChannel.MinCmdCycle` | zsim-nvmain/src/ddr_mem.cpp:470-489 | the arithmetic over the bank record and the circular window gives the model's earliest command cycle |
| `DdrChannel.BankedChannel.RecordAct` | zsim-nvmain/src/ddr_mem.cpp:558-578 | the bank record and the circular buffer of its rank, overwritten in place, are the model's activation, and the window's assertion is evaluated |
| `DdrChannel.BankedChannel.RecordColumn` | zsim-nvmain/src/ddr_mem.cpp:581-599 | bus, precharge and row-buffer fields, overwritten one by one, are the model's column command |
| `DdrChannel.BankedChannel.Issue` | zsim-nvmain/src/ddr_mem.cpp:547-599 | the whole issue in place is the model's, with the truth of its two assertions |
| `DdrChannel.BankedChannel.Refresh` | zsim-nvmain/src/ddr_mem.cpp:634-656 | two loops over the banks find the start of the refresh and close every bank until it is done |
| `IntrusiveList.InList.constructor` | zsim-nvmain/src/intrusive_list.h:82-82 | an empty list |
| `IntrusiveList.InList.Unlink` | zsim-nvmain/src/intrusive_list.h:50-57 | taking an element out wherever it is leaves a well-linked chain of the others in order |
| `IntrusiveList.InList.LinkPrev` | zsim-nvmain/src/intrusive_list.h:59-71 | linking an element in behind another leaves a well-linked chain |
| `IntrusiveList.InList.PushFront` | zsim-nvmain/src/intrusive_list.h:88-101 | the list is the new element followed by the old list |
| `IntrusiveList.InList.PushBack` | zsim-nvmain/src/intrusive_list.h:103-115 | the list is the old list followed by the new element |
| `IntrusiveList.InList.PopFront` | zsim-nvmain/src/intrusive_list.h:117-124 | the list without its first element; nothing on an empty list |
| `IntrusiveList.InList.PopBack` | zsim-nvmain/src/intrusive_list.h:126-133 | the list without its last element; nothing on an empty list |
| `IntrusiveList.InList.Remove` | zsim-nvmain/src/intrusive_list.h:136-143 | the list without that element, which is left unlinked, whether it was first, last, both or neither |
| `IntrusiveList.InList.InsertAfter` | zsim-nvmain/src/intrusive_list.h:145-151 | the list with the element right behind the given one |
| `LruModel.StackInclusion` | zsim-nvmain/src/ideal_arrays.h:81-111 | a recency list cut to n entries and a full one stay in step under every access |
| `LruModel.HitKeeps` | zsim-nvmain/src/ideal_arrays.h:81-91 | a hit keeps order, addresses and table mutually inverse and moves the address to the front |
| `LruModel.AccessFollowsIff` | zsim-nvmain/src/ideal_arrays.h:81-111 | an access to the array is an access to a plain LRU stack if and only if it does not fill a line never used while address 0 is held |
| `LruModel.MissLosesZero` | zsim-nvmain/src/ideal_arrays.h:99-111 | filling a line never used while address 0 is held drops address 0 from the table although nothing is full |
| `LruModel.HoldsMostRecent` | zsim-nvmain/src/ideal_arrays.h:72-111 | after any history the array holds exactly the n most recent addresses in order of recency, so the victim is always the least recently used |
| `LruModel.ExactlyRecentIff` | zsim-nvmain/src/ideal_arrays.h:72-111 | over a whole history the table is at every moment exactly the n most recent addresses if and only if no access fills an unused line after address 0 was used |
| `IdealLru.IdealArray.constructor` | zsim-nvmain/src/ideal_arrays.h:72-79 | n empty lines chained in the order in which they were pushed |
| `IdealLru.IdealArray.Lookup` | zsim-nvmain/src/ideal_arrays.h:81-91 | finds the line of the table and, if asked, moves it to the front of the order |
| `IdealLru.IdealArray.Preinsert` | zsim-nvmain/src/ideal_arrays.h:93-97 | offers the least recent line and the address to write back |
| `IdealLru.IdealArray.Postinsert` | zsim-nvmain/src/ideal_arrays.h:99-111 | table, entry and list updated in place are the model's fill |
| `IdealLru.IdealArray.Use` | zsim-nvmain/src/cache.cpp:64-79 | lookup, and on a miss preinsert and postinsert, over the linked list and the table are one access of the model |
| `EventSafety.TickOrder` | zsim-nvmain/src/event_queue.h:92-110 | a tick that finds no event overdue panics on none, ends, and leaves none due |
| `EventSafety.TickPanics` | zsim-nvmain/src/event_queue.h:97-97 | a tick that finds an event overdue panics |
| `EventSafety.TickCalls` | zsim-nvmain/src/event_queue.h:96-108 | an event that is due is called exactly once in the tick and waits again iff it keeps a period |
| `EventSafety.TickUntouched` | zsim-nvmain/src/event_queue.h:96-108 | an event due later is neither called nor moved |
| `EventSafety.NothingMissed` | zsim-nvmain/src/event_queue.h:92-119 | in every run with one tick in each phase, whatever is inserted when, no event is ever met late |
| `EventSafety.InsertWhere` | zsim-nvmain/src/event_queue.h:112-119 | an event waits behind all that are due no later, in the order in which they came |
| `EventSchedule.FirstCallWhen` | zsim-nvmain/src/event_queue.h:112-119 | for every delay, an event is first called a period after insertion by default and otherwise that many phases after it, and waits until then |
| `EventSchedule.PlainEventSchedule` | zsim-nvmain/src/event_queue.h:92-119 | in every run an event that keeps its period is called in that phase and every period after it, just once without a period, and in no other phase |
| `EventTiming.NextCall` | zsim-nvmain/src/event_queue.h:66-75 | a callback short of the target waits as long as it may: the target cannot be reached before the phase of the next call, nor overshot by more than maxRate in it |
| `EventTiming.FirstWaitIff` | zsim-nvmain/src/event_queue.h:57-61 | the wait the constructor computes is right for every counter within its bounds if and only if the growth between insertion and the end of that phase fits |
| `EventTiming.FirstWaitFails` | zsim-nvmain/src/event_queue.h:57-61 | the fastest counter is caught late, or trips the overshoot assertion, whenever that growth does not fit |
| `EventTiming.FiresOnceOnTime` | zsim-nvmain/src/event_queue.h:57-119 | among any other events, an adaptive event either still waits with its target unreached or has fired exactly once, in the first phase after insertion that reached it, with the overshoot assertion satisfied |
| `EventTiming.FiredIffReached` | zsim-nvmain/src/event_queue.h:63-75 | it has fired iff its counter has reached the target in some phase since insertion |
| `EventQueue.QueuedEvent.Adaptive` | zsim-nvmain/src/event_queue.h:57-61 | the first period of a new adaptive event, never 0 |
| `EventQueue.QueuedEvent.Callback` | zsim-nvmain/src/event_queue.h:65-75 | fires and retires at the target, otherwise sets the next period, as the model does |
| `EventQueue.Queue.Add` | zsim-nvmain/src/event_queue.h:112-119 | inserts at the phase the delay names, behind events of the same phase |
| `EventQueue.Queue.CallFirst` | zsim-nvmain/src/event_queue.h:97-101 | takes the first event out and calls it |
| `EventQueue.Queue.StepFirst` | zsim-nvmain/src/event_queue.h:96-108 | one round of the loop is one step of the model |
| `EventQueue.Queue.TickAt` | zsim-nvmain/src/event_queue.h:92-110 | the loop terminates and computes the model's tick |

## Left out

- `clflush` in the caches and the filter: it unlocks the last-level cache before invalidating and drops the collected write-back, so it is outside the data guarantees.
- Non-inclusive mode, forwarding invalidations, prefetch requests, `PUTX_KEEPEXCL` (never set by any requester), network delays, latencies and profiling counters.
- Interaction between different line addresses beyond the capacity of the tag arrays: locks that one line takes only forbid steps of another, which leaves every result about all runs true; which line is a victim is free.
- The address hash that chooses a parent bank (`getParentId`): each address has a tree of its own, any one.
- Locks, futex system calls and memory ordering: a locked section is one step.
- The set-associative array, whose operations are single loops over one set.
- Replacement and partitioning policies, and the hash functions: any choice, any function.
- The mapping of line addresses to ranks, banks and rows, read responses, write acknowledgements and latency statistics of the DDR controller.
- The two linked lists behind a DDR request queue: a queue is a sequence with a capacity.
- 64-bit overflow of cycle products and counters: numbers are unbounded.
- The side effects of events when they fire, and deletion of events: a fire is an entry in a log.
- `contention_sim`, `core_recorder`, `detailed_mem`, the decoder, configuration, allocation, statistics and tools.
- BarrierWorks: requires that no waiting thread leaves that does not know its place, because the property is false otherwise; the exact condition is in BarrierWorksIff.
- HoldsMostRecent: requires that no access forgets address 0, because the property is false otherwise; the exact condition is in ExactlyRecentIff.
- FiresOnceOnTime: requires the first wait to fit the growth in the phase of insertion, because the property is false otherwise; the exact condition is in FirstWaitIff.
- FiredIffReached: requires the first wait to fit as well, for the same reason; the exact condition is in FirstWaitIff.
- EveryOrderArises: requires the ACT cycles to be at least tRP and tRRD, because a bank that was never used counts as precharged and activated at cycle 0.
