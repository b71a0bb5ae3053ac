# MultiPIM front end: verified models

This project models the stateful cores of MultiPIM's front end, which is based on zsim, and
proves what they keep over whole runs. Every part has two layers. Functions on values mirror
the source branch by branch; a failing assertion or panic of the source sets a flag (`bad`),
and the theorems show that it stays clear. Classes with loops and in-place updates follow the
source's own form, and each method is proved equal to the function that the theorems are
about. Safety alone would admit a controller that does too little, so what the operations
compute is fixed as well, against definitions of its own: the least cycle, the first free
slot, the longest period, the exact state of every cache, the address as quotients and
remainders.

| files | part of the system |
|---|---|
| Mesi, MesiInvalidation, MesiAccess, MesiProtocol, MesiTheorems, MesiProgress, MesiExact, MesiControllers | MESI controllers over a tree of caches of any depth, one line, with the data version each cache would hold |
| Directory, DirectorySystem, DirectoryProof, DirectoryCapacity, DirectoryObject | the coherence directory: all lines, tag array, entries, children with limited frames |
| ZCache, ZArrayObject | the zcache array: candidate walk, relocation chain, lookup table |
| DdrClock, ActWindow, FrFcfs, DdrTiming, DdrController, DdrControllerProof, DdrExact, DdrPolicy, DdrBypass, DdrDrain, DdrObject | the event-driven DDR controller |
| Barrier, BarrierProof, BarrierTheorems, BarrierExact, BarrierObject | the join/leave/sync barrier |
| BusLog, AddressMap | data-bus log and address map of the detailed memory model |
| EventQueue, EventQueueProof, EventTiming | the phase event queue and the adaptive event |
| Insertion, Counting | ordered insertion, which the activation window, the bus log and the event queue share; sizes and sums |

How the models read the source:

- A critical section under the controllers', scheduler's or queue's lock is one atomic step.
  In the MESI model a request is *issued* (a snapshot of the sender's state, lock dropped) and
  later *served*, so invalidations can land in between. When a chain of requests is granted,
  the levels relock hand over hand, which is the `grant` of the protocol state.
- Hash functions, random numbers and the choice of a victim are parameters.
- 64-bit cycle counts are unbounded integers; the largest value, which the DDR controller uses
  for "never", is a separate constructor. The 32-bit row of the detailed memory model is
  truncated explicitly.
- The timing rules that the DDR command log is compared with are those of section 4 of
  JESD79-3, restricted to the parameters the controller has.

Some properties hold only under a condition; the code is modelled as it is:

- The activation window loses its order when an activation is older than the second-oldest
  entry: `LateActivationBreaksOrder` gives an instance and `SortedIff` the exact condition. The
  four-activate bound holds all the same, in every run (`FourActivateWindow`); only the order
  and the contents of the window depend on the condition.
- A thread that leaves the barrier while waiting, before it was ever woken, has no valid
  `lastIdx`: `NeverWokenLeaveBreaksRejoin` gives a run in which the assertion in `join` fails
  when it comes back. `SafetyExact` states, for all calls that the source accepts, that the
  barrier stays safe iff the `lastIdx` of every thread that rejoins is its position or both lie
  at or after the scan position. The run theorems are about those runs; a woken thread meets
  the condition by itself (`WokenRejoins`).
- An event inserted for the current phase after its tick makes the next tick panic, and a later
  one does not (`DelayMatters`). An adaptive event with a start delay of its own, or a start
  value below the counter, may fire late or fail its assertion. With the counter at c and a
  first check in d phases, it never fails the assertion iff c + (d - 1) * maxRate <= target
  (`BoundsExact`), and it always fires on time iff d is 1 or c + (d - 1) * maxRate < target
  (`OnTimeExact`).
- A power-down penalty shifts a burst after its slot was chosen. Bursts stay apart exactly if
  leaving power-down costs nothing, power-down is off, or there is one rank (`PowerDownExact`);
  `PowerDownCollides` gives the colliding accesses for every other configuration.
- The directory can overflow exactly if the children can hold more lines of one directory set
  than it has ways (`OverflowExact`; `AmpleExact` puts it in numbers).
- The address map is invertible exactly while the row fits in 32 bits (`ComposeLocate`).

## Model

| member | source | states |
|---|---|---|
| `MesiTheorems.CoherenceOfEveryRun` | src/coherence_ctrls.cpp:259-390 | in every run of issue, serve, evict, silent-upgrade and unwinding steps over a cache tree of any depth: a sharer bit is set iff that child is not in I, numSharers is the number of bits, a child in E/M is the only sharer under a parent in E/M, inclusion holds, and no assertion or panic is reached |
| `MesiTheorems.SingleWriter` | src/coherence_ctrls.cpp:319-390 | in every run, if a terminal cache is in E/M then every other terminal cache, at any distance in the tree, is in I |
| `MesiTheorems.ReadsSeeLastWrite` | src/coherence_ctrls.cpp:56-201 | in every run, every copy in a terminal cache carries the version last written, through writebacks, fills and all races |
| `MesiTheorems.DirtinessConserved` | src/coherence_ctrls.cpp:56-201 | in every run, if memory is stale some cache holds the line in M |
| `MesiTheorems.DirtyBelow` | src/coherence_ctrls.cpp:165-201 | a cache whose copy is stale has a cache in M below it |
| `MesiTheorems.RacesForeseen` | src/coherence_ctrls.h:268-295 | in every run, a request in flight finds its sender in one of the three foreseen changed states or unchanged; the check passes its asserts, never panics, skips exactly the PUTs of lost lines, and what it passes on is legal for both controllers |
| `MesiTheorems.CopiesOnOwnPath` | src/coherence_ctrls.cpp:259-306 | a node in E/M shares the line only with its ancestors and descendants |
| `MesiTheorems.WriteOk` | src/coherence_ctrls.cpp:143-157 | a store hit in E/M, which creates a new version of the line, keeps the protocol invariant |
| `MesiTheorems.StepOk` | src/coherence_ctrls.h:341-427 | every enabled step keeps the protocol invariant |
| `MesiProgress.NeverStuck` | src/coherence_ctrls.h:341-437 | in every reachable state with a request in flight some request can be served or some grant unwound |
| `MesiProgress.RequestsDrain` | src/coherence_ctrls.h:341-437 | from every reachable state some finite run of services clears all requests, and no run of services is longer than the work there was, so serving in any order ends |
| `MesiProgress.ServiceWork` | src/coherence_ctrls.h:341-437 | every service, including one that turns the parent into a requester, leaves strictly less work |
| `MesiExact.EveryStepExact` | src/coherence_ctrls.h:341-457 | in every run each step leaves every cache of the tree in exactly the state that the states before it determine, without looking at directories: who is granted E, S or M, who is invalidated, who is downgraded, and who becomes dirty |
| `MesiExact.LoneLoad` | src/coherence_ctrls.cpp:108-133 | in every run: while no cache off the way from memory to t has a copy, a load of t is served, and however it is served t ends in E if the load did not decline exclusivity and no cache above has only a shared copy, and in S otherwise |
| `MesiExact.GetSExact` | src/coherence_ctrls.cpp:339-362 | a GETS, for every cache: the requester in E iff exclusivity is not declined, the parent has it and no child of the parent has a copy; exclusive copies below the parent become S; the parent becomes M iff a cache below was dirty; nothing else changes |
| `MesiExact.GetXExact` | src/coherence_ctrls.cpp:363-384 | a GETX, for every cache: the requester in M, every copy below its siblings gone, its own subtree untouched, the parent M iff a cache below was dirty |
| `MesiExact.InvalidateExact` | src/coherence_ctrls.cpp:174-201 | an invalidation reports a writeback iff some cache it reaches is in M; INV leaves no copy below, INVX turns exactly the exclusive copies into S |
| `MesiExact.SendAtExact` | src/coherence_ctrls.cpp:259-306 | the same for sendInvalidates at any cache of a coherent tree |
| `MesiExact.ServeExact` | src/coherence_ctrls.h:341-427 | serving any request in flight leaves every cache in that state, after whatever races |
| `MesiExact.FailuresStay` | src/coherence_ctrls.h:341-457 | a failed assertion is never forgotten by any later step, so a clear flag speaks for the whole run |
| `MesiExact.EvictExact` | src/coherence_ctrls.h:375-380 | an eviction removes every copy below and sends PUTX iff a cache at or below was dirty |
| `MesiProtocol.RaceCheckComplete` | src/coherence_ctrls.h:268-295 | for every request type, snapshot and current state that can occur, the asserts of the check hold, with the exact conditions for skipping and for turning PUTX into PUTS |
| `MesiProtocol.RaceCheckExact` | src/coherence_ctrls.h:268-295 | for every type and every pair of states, also those that cannot occur: when the check fails, when it skips, and that it changes nothing but a PUTX that lost its exclusivity |
| `MesiProtocol.ServeOk` | src/coherence_ctrls.h:341-427 | serving a request (race check, bottom controller, top controller, or asking the parent) keeps the invariant |
| `MesiProtocol.ServePut` | src/coherence_ctrls.cpp:95-107 | a PUT that survives the race check is absorbed by both controllers and keeps the invariant |
| `MesiProtocol.ServeAsk` | src/coherence_ctrls.cpp:108-142 | a parent that lacks permission becomes a requester with its own snapshot, and the invariant holds |
| `MesiProtocol.FinishOk` | src/coherence_ctrls.h:410-437 | completing a GET at the parent and unwinding to the child keeps the invariant |
| `MesiProtocol.ServeRootOk` | src/ddr_mem.cpp:243-257 | the memory controller serving the last-level cache keeps the invariant |
| `MesiProtocol.EvictOk` | src/coherence_ctrls.h:375-380 | an inclusive eviction (invalidate the children, become M on a writeback, send PUTS or PUTX) keeps the invariant |
| `MesiProtocol.IssueGetOk` | src/coherence_ctrls.cpp:108-142 | a terminal cache dropping its lock to send a GET keeps the invariant |
| `MesiInvalidation.InvalidateOk` | src/coherence_ctrls.cpp:174-201 | invalidating or downgrading a node leaves its whole subtree coherent, touches nothing outside it, brings the latest data to the node, and reports a writeback unless it had clean latest data |
| `MesiInvalidation.SendInvalidatesOk` | src/coherence_ctrls.cpp:259-306 | sending INV or INVX reaches exactly the sharers, counts them, empties or de-exclusives the entry, and takes the latest data from a child that writes back |
| `MesiInvalidation.SendFromOk` | src/coherence_ctrls.cpp:281-294 | the loop over the children, from any child on: exactly the remaining sharers are invalidated, one message each |
| `MesiAccess.TopGetSOk` | src/coherence_ctrls.cpp:339-362 | a GETS leaves the whole hierarchy coherent; the requester gets the latest data, in E if it did not decline exclusivity, the parent has it and no child of the parent has a copy, in S otherwise |
| `MesiAccess.TopGetXOk` | src/coherence_ctrls.cpp:363-384 | a GETX leaves the whole hierarchy coherent, with the requester in M as the only sharer |
| `MesiAccess.UpgradeOk` | src/coherence_ctrls.cpp:366-374 | an upgrade miss takes the requester out of the list first and still invalidates all others |
| `MesiAccess.PutOk` | src/coherence_ctrls.cpp:324-338 | a PUT removes the child, moves dirty data up, and leaves the hierarchy coherent |
| `MesiAccess.SilentUpgradeOk` | src/coherence_ctrls.cpp:143-153 | E to M at a node keeps the hierarchy coherent |
| `MesiControllers.CacheTree.BottomProcessInval` | src/coherence_ctrls.cpp:174-201 | refines BottomInval: a writeback is reported exactly for M, and INVX leaves S, INV leaves I |
| `MesiControllers.CacheTree.ProcessInv` | src/coherence_ctrls.h:449-457 | refines the recursive Invalidate over the whole subtree, the object of InvalidateOk |
| `MesiControllers.CacheTree.SendInvs` | src/coherence_ctrls.cpp:259-306 | the in-place loop over the children refines SendInvalidates, the object of SendInvalidatesOk, with its count and asserts |
| `MesiControllers.CacheTree.TopProcessAccess` | src/coherence_ctrls.cpp:319-390 | for all four request types the fields after the call are those of TopAccess, whose exact effect on every cache is GetSExact, GetXExact and PutOk |
| `MesiControllers.CacheTree.ProcessPut` | src/coherence_ctrls.cpp:324-338 | refines TopPut: the child is off the list and dirty data has moved up |
| `MesiControllers.CacheTree.ProcessGetS` | src/coherence_ctrls.cpp:339-362 | refines TopGetS, including the downgrade of an owner and the writeback it induces; E is granted iff it is not declined, the parent has it and the entry is empty |
| `MesiControllers.CacheTree.ProcessGetX` | src/coherence_ctrls.cpp:363-384 | refines TopGetX, including the upgrade case and the writeback it induces |
| `MesiControllers.CacheTree.RecordWriteback` | src/coherence_ctrls.cpp:165-172 | a writeback from below makes the line M |
| `MesiControllers.CacheTree.CheckRace` | src/coherence_ctrls.h:268-295 | refines CheckForMESIRace, the object of RaceCheckComplete, for every type and pair of states |
| `MesiControllers.CacheTree.BottomProcessAccess` | src/coherence_ctrls.cpp:91-163 | the bottom controller without a request to the parent |
| `MesiControllers.CacheTree.ServeChild` | src/coherence_ctrls.h:341-427 | race check, bottom controller, top controller in this order, stopping where the parent must be asked |
| `MesiControllers.CacheTree.StartEviction` | src/coherence_ctrls.h:375-380 | children invalidated, promotion to M, and the type of the PUT |
| `DirectoryProof.DirectoryExact` | src/coherence_directory.cpp:171-260 | in every run no assertion fails, the tags are exactly the lines that some child holds, the sharers of an entry are exactly the children holding its line, and numSharers counts them |
| `DirectoryProof.DirectorySingleWriter` | src/coherence_directory.cpp:201-260 | in every run a child in E/M is the only one with a copy of that line |
| `DirectoryProof.DirectoryNeverOverflows` | src/cd_arrays.cpp:28-42 | if the associativity is at least the sum of the children's and the directory sets refine theirs, preinsert finds a free way in every run |
| `DirectoryCapacity.OverflowExact` | src/cd_arrays.cpp:28-42 | for every geometry, hash and indexing: some run makes preinsert fail iff the children can hold more lines of one directory set than it has ways |
| `DirectoryCapacity.AmpleExact` | src/cd_arrays.cpp:28-42 | if the directory sets refine the children's and one has more lines than ways: the directory can overflow iff its associativity is below the sum of the children's |
| `DirectoryCapacity.FullSetPacks` | src/cd_arrays.cpp:28-42 | a set without a free way and a line that wants one show how the children hold one line too many |
| `DirectoryCapacity.PackingOverflows` | src/coherence_directory.cpp:305-347 | fetching such lines one by one ends with preinsert failing |
| `DirectoryProof.FreeWayExists` | src/cd_arrays.cpp:28-42 | the counting argument: a full set would need more frames than the children have, one of theirs being taken by the requested line |
| `DirectoryProof.ServeOk` | src/coherence_directory.cpp:305-347 | serving a request keeps the invariant, and stops only if the line has no tag, its sender no copy, and its set no free way |
| `DirectoryProof.ServeExact` | src/coherence_directory.cpp:305-347 | what serving a request does to every child and every line: a PUT of a lost line nothing, a line without a free way stops the simulation, and otherwise only this line changes: the requester to M, E, S or I, the others to I or from E/M to S |
| `DirectoryProof.FailuresStay` | src/coherence_directory.cpp:305-347 | a failed assertion is never forgotten by a later step |
| `DirectoryProof.RaceComplete` | src/coherence_ctrls.h:268-295 | the race check is complete for directory children |
| `DirectoryProof.GetOk` | src/coherence_directory.cpp:201-260 | a GET on a tagged line keeps the invariant |
| `DirectoryProof.PutOk` | src/coherence_directory.cpp:171-200 | a PUT keeps the invariant; the tag disappears with the last sharer |
| `DirectoryProof.TakeWay` | src/coherence_directory.cpp:337-344 | a line without a tag is held by nobody, so a fresh way with a clear entry describes it exactly |
| `DirectoryProof.DropTag` | src/coherence_directory.cpp:330-334 | clearing the way of an emptied entry keeps tags and copies in agreement |
| `DirectoryProof.AllocateOk` | src/cache.cpp:116-126 | a child replacing an invalid line in its own array changes no state and keeps its frame count |
| `DirectoryProof.RivalsSize` | src/cd_arrays.cpp:28-42 | the competing frames of all children together, without the one of the requested line, are fewer than the sum of their associativities |
| `Directory.GetSExact` | src/coherence_directory.cpp:206-232 | GETS on one line: the requester in E iff it did not decline and nobody had a copy, else in S; the owner downgraded, everybody else unchanged, and the exact entry afterwards |
| `Directory.GetXExact` | src/coherence_directory.cpp:233-254 | GETX on one line: the requester is alone, in M |
| `Directory.PutExact` | src/coherence_directory.cpp:171-200 | PUTS/PUTX on one line: only the sender changes; an empty entry is cleared |
| `Directory.FailureStays` | src/coherence_directory.cpp:121-260 | no access to a line forgets a failed assertion |
| `Directory.InvLoop` | src/coherence_directory.cpp:143-161 | the loop of sendInvalidates invalidates exactly the sharers and counts them |
| `Directory.DowngradeLoop` | src/coherence_directory.cpp:143-166 | on INVX the loop reaches exactly the one owner |
| `Directory.SingleOwner` | src/coherence_directory.cpp:201-260 | an exact entry with an exclusive owner excludes other copies |
| `DirectoryObject.TagArray.Lookup` | src/cd_arrays.cpp:15-26 | the linear search returns the first way of the set with the tag, or -1 |
| `DirectoryObject.TagArray.Preinsert` | src/cd_arrays.cpp:28-42 | the linear search returns the first free way of the set, or -1 |
| `DirectoryObject.TagArray.Postinsert` | src/cd_arrays.cpp:44-47 | exactly one tag changes |
| `DirectoryObject.TagArray.Clear` | src/cd_arrays.cpp:49-52 | exactly one way becomes free |
| `DirectoryObject.TopController.SendAll` | src/coherence_directory.cpp:147-157 | the in-place loop refines InvalidateFrom, the object of InvLoop and DowngradeLoop |
| `DirectoryObject.TopController.DoSendInvalidates` | src/coherence_directory.cpp:121-169 | refines InvalidateAll, with its asserts on the count and on exclusivity |
| `DirectoryObject.TopController.ProcessGetS` | src/coherence_directory.cpp:206-232 | refines GetS, the object of GetSExact |
| `DirectoryObject.TopController.ProcessGetX` | src/coherence_directory.cpp:233-254 | refines GetX, the object of GetXExact |
| `DirectoryObject.TopController.ProcessWriteBack` | src/coherence_directory.cpp:171-200 | refines Put, the object of PutExact, and reports exactly the emptied entries |
| `ZCache.ZArrayRefinesMap` | src/cache_arrays.cpp:102-221 | after any sequence of misses, whatever walks and victims, lookupArray is a permutation, every line sits at one of its own positions, and lookup answers like a plain map from which only the reported victims were removed |
| `ZCache.LookupIsMap` | src/cache_arrays.cpp:102-120 | lookup finds an address iff the map holds it, at the same line |
| `ZCache.MissIsMapUpdate` | src/cache_arrays.cpp:122-221 | one miss: only the victim goes, only the new address comes |
| `ZCache.ChainIsGoodSwap` | src/cache_arrays.cpp:176-198 | the chain from the first candidate naming the victim to its root never repeats a position, although the walk may revisit lines |
| `ZCache.ParentFirst` | src/cache_arrays.cpp:140-165 | if a candidate is the first to name its line, so is its parent |
| `ZCache.ChainFirst` | src/cache_arrays.cpp:178-198 | every candidate on the chain is the first to name its line |
| `ZCache.ChainLength` | src/cache_arrays.cpp:191-198 | a chain from candidate x has at most x / ways + 1 elements |
| `ZCache.SwapArrayFits` | src/cache_arrays.cpp:91 | so it fits in swapArray |
| `ZCache.RotateIsSource` | src/cache_arrays.cpp:206-213 | the copy loop is a pure rotation along the chain |
| `ZCache.RotatePerm` | src/cache_arrays.cpp:206-213 | rotating keeps lookupArray a permutation |
| `ZCache.InsertKeepsInv` | src/cache_arrays.cpp:206-221 | every line still sits at one of its own positions after the relocations |
| `ZCache.InsertIsMapUpdate` | src/cache_arrays.cpp:206-221 | relocated lines keep their ids: the insertion is a map update |
| `ZArrayObject.VisitKeepsWalk` | src/cache_arrays.cpp:145-163 | one turn of the expansion loop keeps the structure of the walk |
| `ZArrayObject.ZArray.constructor` | src/cache_arrays.cpp:74-92 | an empty array with the identity lookup table |
| `ZArrayObject.ZArray.Lookup` | src/cache_arrays.cpp:102-120 | the loop over the ways returns what the map holds |
| `ZArrayObject.ZArray.Seeds` | src/cache_arrays.cpp:131-138 | the first candidates are the positions of the incoming address, all valid iff reported so |
| `ZArrayObject.ZArray.ExpandFringe` | src/cache_arrays.cpp:141-165 | expanding a candidate adds all its other positions, at least one and at most ways of them, all valid iff reported so |
| `ZArrayObject.ZArray.FindCandidates` | src/cache_arrays.cpp:122-169 | the breadth-first loop ends with a well-formed walk, at cands candidates or more unless one of them is an invalid line, and without an expansion that was not needed |
| `ZArrayObject.ZArray.Preinsert` | src/cache_arrays.cpp:122-204 | the victim is the candidate that the policy picked among the first cands ones; the swap array is the chain, without repetition, from the first candidate naming it up to its seed, and the walk is one that MissIsMapUpdate accepts |
| `ZArrayObject.ZArray.FirstNaming` | src/cache_arrays.cpp:178-186 | the first candidate that names the chosen line |
| `ZArrayObject.ZArray.FillSwapArray` | src/cache_arrays.cpp:191-198 | the loop writes the chain into swapArray, within its bounds |
| `ZArrayObject.ZArray.Postinsert` | src/cache_arrays.cpp:206-221 | the in-place copy loop yields exactly the inserted array |
| `DdrClock.MatchingRoundTrip` | src/ddr_mem.h:253-258 | sysToMem(matchingMemToSys(m)) = m for every m >= 1 if memFreq < sysFreq/2, and the result is not 0 |
| `DdrClock.QueuedCycleConverts` | src/ddr_mem.cpp:336-338 | the later of the matching system cycle and now converts back to exactly the requested memory cycle |
| `DdrClock.ResponseNotPast` | src/ddr_mem.h:250-251 | converting a current or later memory cycle to a system cycle never goes back in time |
| `DdrClock.SysToMemMonotone` | src/ddr_mem.h:250 | the conversion is monotone |
| `DdrClock.SysToMemExact` | src/ddr_mem.h:250 | the conversion without division: memory cycle m is the one during which the memory clock has ticked m - 1 times |
| `DdrClock.MemToSysExact` | src/ddr_mem.h:251 | the last system cycle in which the memory clock has ticked at most memCycle + 1 times |
| `DdrClock.MatchingExact` | src/ddr_mem.h:253-258 | the system cycle in the middle of the memory cycle, rounded down |
| `ActWindow.FourActivateWindow` | src/ddr_mem.h:43-79 | in every run any n+1 activations in time order span t, although they may be recorded out of order and the window may lose its own; if none is older than the second-oldest entry the window is sorted and holds the latest ones |
| `ActWindow.SortedIff` | src/ddr_mem.h:59-74 | the window stays in time order iff the new activation is not older than its second-oldest entry |
| `ActWindow.LateActivationBreaksOrder` | src/ddr_mem.h:65-71 | for every tFAW, a run from the idle window that destroys the order: a fourth activation, tFAW after the oldest entry, falls before three that were recorded first |
| `ActWindow.AddedIsInsert` | src/ddr_mem.h:59-74 | otherwise adding drops the oldest entry and inserts in order |
| `ActWindow.AddedLate` | src/ddr_mem.h:65-71 | what exactly is left when the loop goes round the whole buffer |
| `ActWindow.WindowFollowsHistory` | src/ddr_mem.h:59-74 | the window is the newest part of the sorted history |
| `ActWindow.AddedHolds` | src/ddr_mem.h:59-74 | whatever its order, a window loses exactly its oldest slot and gains the activation |
| `ActWindow.AddedShape` | src/ddr_mem.h:59-74 | where the entries end up, for windows in any order, including the loop that goes round the whole buffer |
| `ActWindow.BoundKept` | src/ddr_mem.cpp:568-576 | for a window in any order: the activations of the past in any t cycles, plus the entries before them, never exceed the window size |
| `ActWindow.RunBounded` | src/ddr_mem.cpp:568-576 | that bound over any run |
| `ActWindow.SpacingKept` | src/ddr_mem.cpp:568-576 | one activation that keeps its distance from the window's oldest entry keeps the spacing of the whole history |
| `ActWindow.ActivationWindow.MakeRoom` | src/ddr_mem.h:65-70 | the circular shifting loop moves exactly the newer entries, for any window |
| `ActWindow.ActivationWindow.AddActivation` | src/ddr_mem.h:59-74 | the ring buffer, read from its oldest slot, becomes exactly Added of what it was, for windows in any order |
| `ActWindow.ActivationWindow.MinActCycle` | src/ddr_mem.h:55-57 | the oldest entry |
| `FrFcfs.BoundedBypass` | src/ddr_mem.cpp:384-419 | whatever arrives meanwhile, a waiting request has been served once its bank has served more requests than its potential |
| `FrFcfs.BypassBound` | src/ddr_mem.cpp:384-419 | so x requests ahead cost at most x * (limit + 1) services |
| `FrFcfs.QueueKeepsPotential` | src/ddr_mem.cpp:384-419 | queueing any request leaves the potential of every waiting request unchanged |
| `FrFcfs.PopPotential` | src/ddr_mem.cpp:627-629 | serving the head lowers it by one plus the head's unused hits |
| `FrFcfs.PotentialBound` | src/ddr_mem.cpp:384-419 | the potential lies between the requests ahead and (limit + 1) times their number |
| `FrFcfs.RunValid` | src/ddr_mem.cpp:384-419 | in every run hit numbers stay within the limit, hits directly follow one another, and the requests of a row are served and waiting in arrival order |
| `FrFcfs.QueuedChains` | src/ddr_mem.cpp:384-397 | a request numbered as a hit directly follows its predecessor of the same row |
| `FrFcfs.QueuedFifo` | src/ddr_mem.cpp:384-419 | a new request comes after all earlier ones for its row |
| `FrFcfs.QueuedBehindRow` | src/ddr_mem.cpp:384-399 | a request for a waiting row goes directly behind the last one for it and is numbered as its next hit, or to the end if the hits are used up |
| `FrFcfs.QueuedNewRow` | src/ddr_mem.cpp:401-419 | a request for another row goes to the end, as a hit of the open row, with the next number of that row, only if nobody waits and the row has hits left |
| `FrFcfs.QueuedBatched` | src/ddr_mem.cpp:384-419 | queueing keeps consecutive requests for a row with hits left in one batch |
| `FrFcfs.BatchIsTogether` | src/ddr_mem.cpp:384-419 | so no other row is served between two requests of a row that has hits left |
| `FrFcfs.FindLast` | src/ddr_mem.cpp:384-399 | the backward search finds the last request for the row |
| `FrFcfs.Queue` | src/ddr_mem.cpp:384-419 | refines Queued, the object of the bypass and order theorems |
| `DdrTiming.TimingOfEveryRun` | src/ddr_mem.cpp:491-656 | in every run of services and refreshes the command log obeys the reference rules: rows opened when closed and accessed when open; per bank tRCD, tRP, tRAS, tRTP, tWR, tRRD; bursts tBL apart; tWTR; no activation, precharge or access inside a refresh, and the next refresh at most tRP before its end |
| `DdrTiming.FourActivatesPerWindow` | src/ddr_mem.cpp:568-576 | in every run, for each rank: at most four activations start in any tFAW cycles, any five in time order span tFAW, and if none is older than the second-oldest entry the window holds the last four |
| `DdrTiming.BurstsDisjoint` | src/ddr_mem.cpp:581-584 | two data bursts on the channel never overlap |
| `DdrTiming.IssueIsCommands` | src/ddr_mem.cpp:549-599 | the state trySchedule computes is the one its PRE, ACT, CAS and auto-precharge commands lead to |
| `DdrTiming.IssueGood` | src/ddr_mem.cpp:549-599 | issuing any ready request appends legal commands |
| `DdrTiming.IssueSettled` | src/ddr_mem.cpp:596-598 | the command cycle of a bank strictly increases (the assertion on lastCmdCycle) |
| `DdrTiming.ColumnAllowed` | src/ddr_mem.cpp:549-584 | the column command of a ready request waits for tRCD, the bus and tWTR |
| `DdrTiming.RefreshGood` | src/ddr_mem.cpp:634-656 | a refresh starts when every bank can be precharged and keeps the log legal |
| `DdrTiming.AllowedSpacing` | src/ddr_mem.cpp:549-599 | a command the state allows keeps its distance from every earlier command |
| `DdrTiming.ApplyRemembers` | src/ddr_mem.cpp:549-599 | the few cycles kept per bank remember every constraint of the whole past |
| `DdrExact.StateIsHistory` | src/ddr_mem.cpp:549-656 | in every run the state allows a command iff the timing rules allow it after the whole history of commands: nothing is forgotten and nothing is held back longer than the rules demand |
| `DdrExact.MinCmdExact` | src/ddr_mem.cpp:470-489 | findMinCmdCycle is the least cycle: for a row hit the first one from the arrival on that is past the last column command of the bank, otherwise the first in which some legal sequence of commands has the row open and the access allowed |
| `DdrExact.CommandEarliest` | src/ddr_mem.cpp:549-584 | the column command of a ready request goes out in the first cycle, from now on, that bank, bus and turnaround allow |
| `DdrExact.RefreshEarliest` | src/ddr_mem.cpp:635-642 | a refresh starts in the first cycle in which every bank can be precharged and is past its last column command |
| `DdrExact.LegalAllowed` | src/ddr_mem.cpp:549-599 | whatever the history allows, the state allows |
| `DdrExact.RunExact` | src/ddr_mem.cpp:491-656 | in every run the few cycles kept per bank and bus are exactly what the history of commands gives |
| `DdrControllerProof.NoLostWakeup` | src/ddr_mem.cpp:93-148 | in every run of arrivals, event firings in any order and refreshes: a request is waiting iff exactly one live event is queued, it fires in exactly nextSchedCycle, and no assertion fails |
| `DdrControllerProof.RequestsConserved` | src/ddr_mem.cpp:296-343 | in every run each accepted request is either served once or in exactly one queue |
| `DdrControllerProof.ControllerTiming` | src/ddr_mem.cpp:491-656 | the commands of every controller run obey the timing rules |
| `DdrControllerProof.ControllerActivations` | src/ddr_mem.cpp:568-576 | the same in every controller run: at most four activations of a rank in any tFAW cycles |
| `DdrControllerProof.ControllerLists` | src/ddr_mem.cpp:384-419 | in every run all bank lists are in the order that bounds bypassing, and requests for a row with hits left stand together |
| `DdrDrain.RequestsServed` | src/ddr_mem.cpp:426-461 | from every reachable state, firing events without arrivals or refreshes ends with every accepted request served; no run of firings is longer than the work there was, and as long as a request waits one can fire |
| `DdrDrain.TickWork` | src/ddr_mem.cpp:426-632 | every tick of the live event serves a request, moves one out of the overflow queue, or comes a stage closer to serving: bus free, then a request ready |
| `DdrDrain.SearchAgain` | src/ddr_mem.cpp:516-543 | in the cycle that an unsuccessful search returns, the same search succeeds |
| `DdrDrain.FiringWork` | src/ddr_mem.cpp:114-132 | every firing, of the live event or an annulled one, leaves strictly less to do |
| `DdrBypass.ControllerBypass` | src/ddr_mem.cpp:384-419 | in every controller run, a request waiting in a bank list has been served once that list has served more requests than its potential, whatever arrives, overflows or is refreshed meanwhile |
| `DdrBypass.ServeTracked` | src/ddr_mem.cpp:547-631 | serving a request lowers the potential of all that wait behind it in its list and leaves the other lists alone |
| `DdrBypass.EnterTracked` | src/ddr_mem.cpp:384-419 | queueing a request changes the potential of none that wait |
| `DdrPolicy.RunFollows` | src/ddr_mem.cpp:93-148 | every run of the controller is, for the devices, a run of the timing model |
| `DdrPolicy.ControllerExact` | src/ddr_mem.cpp:491-656 | so in every controller run the device state allows a command iff the rules allow it after all commands sent so far |
| `DdrPolicy.PickExact` | src/ddr_mem.cpp:509-511 | writes go first iff no read waits, the write queue is more than three quarters full, or it is more than a quarter full and the last access was a write |
| `DdrPolicy.WritesDrain` | src/ddr_mem.cpp:509-511 | once the write queue is more than three quarters full only writes are served until it is down to a quarter, whatever arrives |
| `DdrPolicy.WriteQueueOfWrites` | src/ddr_mem.cpp:296-322 | in every run the write queue holds writes only |
| `DdrPolicy.WaitsForBus` | src/ddr_mem.cpp:506-507 | nothing is served before the bus is free, and the next tick comes when it is |
| `DdrPolicy.ServesFirstReady` | src/ddr_mem.cpp:513-534 | then the first request, in arrival order, that is first in its bank and ready is served |
| `DdrPolicy.WaitsForReady` | src/ddr_mem.cpp:516-543 | if none is ready the next tick comes in the first cycle in which one will be |
| `DdrPolicy.ServeExact` | src/ddr_mem.cpp:547-631 | serving takes exactly that request out, leaves its row open unless pages are closed and no hit of it follows, and records the number of the hit |
| `DdrPolicy.EnqueueExact` | src/ddr_mem.cpp:296-343 | a request that finds a queue full goes behind the overflow queue and changes nothing else; otherwise it goes behind its own queue, and the wake-up moves forward only if it is first in its bank, to when it can be served |
| `DdrPolicy.RefillExact` | src/ddr_mem.cpp:432-450 | an overflowed request enters iff both queues have room, the first one, behind its own queue |
| `DdrPolicy.FailuresStay` | src/ddr_mem.cpp:93-343 | a failed assertion is never forgotten by a later step |
| `DdrPolicy.OverflowInOrder` | src/ddr_mem.cpp:432-450 | in every run requests leave the overflow queue in the order in which they came to it |
| `DdrControllerProof.EnqueueOk` | src/ddr_mem.cpp:296-343 | enqueue keeps the invariant, on the overflow, queued and rescheduled paths |
| `DdrControllerProof.TickOk` | src/ddr_mem.cpp:426-461 | tick returns 0 iff nothing waits, and otherwise a system cycle that converts to nextSchedCycle |
| `DdrControllerProof.FireLive` | src/ddr_mem.cpp:114-125 | a live event firing keeps the invariant |
| `DdrControllerProof.FireAnnulled` | src/ddr_mem.cpp:126-131 | an annulled event only goes back to the free list |
| `DdrControllerProof.RescheduleOk` | src/ddr_mem.cpp:325-340 | a new event replaces the live one, recycled or allocated |
| `DdrControllerProof.TryScheduleOk` | src/ddr_mem.cpp:491-632 | the scheduler loses no request and returns never iff both queues are empty, otherwise a cycle not in the past |
| `DdrControllerProof.RefillOk` | src/ddr_mem.cpp:432-450 | moving an overflowed request keeps that promise and leaves no overflow without a wake-up |
| `DdrControllerProof.RefreshOk` | src/ddr_mem.cpp:634-656 | a refresh keeps the invariant |
| `DdrControllerProof.SearchNotReady` | src/ddr_mem.cpp:516-543 | if no request is ready the search returns a cycle in which one will be; WaitsForReady shows that it is the first |
| `DdrControllerProof.HeadExists` | src/ddr_mem.cpp:514-534 | a non-empty queue always has a request that is first in its bank |
| `DdrControllerProof.AddHead` | src/ddr_mem.cpp:319-322 | a request entering an empty queue is first in its bank |
| `DdrControllerProof.ServedInTime` | src/ddr_mem.cpp:606-607 | the response of a served request is not before the tick (the assertion on doneSysCycle) |
| `DdrController.SearchFound` | src/ddr_mem.cpp:516-534 | the search returns the first request in arrival order that is first in its bank and ready |
| `DdrObject.DdrMemory.constructor` | src/ddr_mem.cpp:153-226 | a new controller is in an initial state of the run theorems: ranks times banks closed, idle windows, empty queues, no event |
| `DdrObject.DdrMemory.AddActivation` | src/ddr_mem.cpp:575 | exactly the ring buffer of the rank changes, to Added of what it was |
| `DdrObject.DdrMemory.Allocate` | src/ddr_mem.cpp:296-322 | refines Add: the entry is queued, and the backward search places it in the list of its bank |
| `DdrObject.DdrMemory.Dequeue` | src/ddr_mem.cpp:627-629 | refines Remove: the request leaves queue and list |
| `DdrObject.DdrMemory.AccessColumn` | src/ddr_mem.cpp:583-599 | the column access: bus taken, bank recovering, and closed if the policy says so |
| `DdrObject.DdrMemory.FindReady` | src/ddr_mem.cpp:516-534 | the scan over the queue refines Search, the object of SearchFound, ServesFirstReady and WaitsForReady |
| `DdrObject.DdrMemory.EarliestCmd` | src/ddr_mem.cpp:470-489 | refines FindMinCmdCycle, which MinCmdExact shows to be the least cycle in which the request is ready |
| `DdrObject.DdrMemory.IssueRequest` | src/ddr_mem.cpp:549-599 | the in-place bank and bus updates refine Issue, the object of IssueIsCommands |
| `DdrObject.DdrMemory.OpenRow` | src/ddr_mem.cpp:557-578 | precharge and activation of a row miss: one bank and one window change, at the cycle the timing rules allow first |
| `DdrObject.DdrMemory.Serve` | src/ddr_mem.cpp:547-631 | refines ServeAt: the request leaves its queue and its bank list together |
| `DdrObject.DdrMemory.DoTrySchedule` | src/ddr_mem.cpp:491-632 | refines TrySchedule; the assertion that the chosen queue is not empty holds for every depth and fill |
| `DdrObject.DdrMemory.DoRefill` | src/ddr_mem.cpp:432-450 | refines Refill, the object of RefillOk |
| `DdrObject.DdrMemory.DoTick` | src/ddr_mem.cpp:426-461 | refines Tick, the object of TickOk |
| `DdrObject.DdrMemory.Simulate` | src/ddr_mem.cpp:114-132 | refines Fire, one step of the runs of NoLostWakeup |
| `DdrObject.DdrMemory.DoReschedule` | src/ddr_mem.cpp:325-340 | refines Reschedule, the object of RescheduleOk |
| `DdrObject.DdrMemory.DoEnqueue` | src/ddr_mem.cpp:296-343 | refines Enqueue, one step of the runs of NoLostWakeup |
| `DdrObject.DdrMemory.MinRefreshCycle` | src/ddr_mem.cpp:635-642 | the loop computes the first cycle at which every bank can be precharged |
| `DdrObject.DdrMemory.CloseAll` | src/ddr_mem.cpp:646-653 | the loop closes every bank in place |
| `DdrObject.DdrMemory.Refresh` | src/ddr_mem.cpp:634-656 | refines RefreshAll, one step of the runs of NoLostWakeup |
| `BarrierTheorems.BarrierSafety` | src/barrier.h:124-279 | in every run of join, leave of a running or waiting thread, and sync, with sound rejoins: runList holds exactly the threads not OFFLINE, once each; runningThreads and leftThreads are the true counts; runningThreads <= parallelThreads; WAITING implies futexWord 1; no assertion fails and no phase ends early |
| `BarrierTheorems.SafetyExact` | src/barrier.h:124-279 | for every sequence of calls that the source accepts: the barrier is safe throughout iff each thread that joins is OFFLINE, or has left and its lastIdx is its position or both lie at or after the scan position |
| `BarrierTheorems.JoinExact` | src/barrier.h:124-163 | one join of any OFFLINE or LEFT thread keeps a safe barrier safe iff that holds; otherwise the assertion fails, or the thread is never looked at again in this phase, which then ends too early |
| `BarrierTheorems.BarrierProgress` | src/barrier.h:166-279 | after every operation some thread runs or none waits, and parallelism is saturated or the run list is exhausted |
| `BarrierTheorems.JoinKeepsPhase` | src/barrier.h:127-151 | in all these runs a join never ends a phase, and a same-phase rejoin finds runList[lastIdx] == tid |
| `BarrierTheorems.NeverWokenLeaveBreaksRejoin` | src/barrier.h:127-151 | a concrete run in which a never-woken thread leaves and its rejoin fails the assertion |
| `BarrierTheorems.RejoinExact` | src/barrier.h:133-151 | a rejoin is sound iff lastIdx is the thread's position, or both lie at or after the scan position |
| `BarrierExact.PhasesOfEveryRun` | src/barrier.h:166-279 | in every run, for every operation: the phase ends iff the last running thread syncs or leaves, no thread is left to wake in it and some thread waits; the threads that left go OFFLINE exactly at the end of every 32nd phase; otherwise the operation wakes exactly the threads that Scanned describes |
| `BarrierExact.OpExact` | src/barrier.h:166-279 | a new phase starts with as many of the waiting threads as may run; within a phase the scan goes on from where it stood |
| `BarrierExact.CheckRunListExact` | src/barrier.h:256-273 | the scan wakes exactly the waiting threads it meets, goes on to the end of the list or until parallelism is saturated, and looks no further than needed |
| `BarrierExact.OverExact` | src/barrier.h:201-207 | after the scan the end of a phase is due iff nobody runs, nobody ahead waits and somebody waits |
| `BarrierExact.NewPhaseExact` | src/barrier.h:212-253 | threads that left go OFFLINE iff this is a cleanup phase, no other state changes, and a list that can run at once keeps its order |
| `BarrierExact.AnyOrder` | src/barrier.h:238-252 | if not all threads can run at once, every order of the threads that stay comes out for some generator |
| `BarrierExact.ShuffleExact` | src/barrier.h:238-252 | every order of the run list is produced by exactly one sequence of choices, so a fair generator makes all orders equally likely |
| `BarrierExact.MisuseFails` | src/barrier.h:124-198 | an operation of a thread in a state that it does not accept fails its assertion, and no failure is forgotten |
| `BarrierExact.RunAhead` | src/barrier.h:256-273 | in every run the scan has passed every running thread |
| `BarrierProof.PhaseEndsComplete` | src/barrier.h:201-211 | when the phase callback fires every thread has left or has synced in this phase |
| `BarrierProof.JoinOk` | src/barrier.h:124-163 | a sound join keeps safety and progress and does not change the phase |
| `BarrierProof.WokenRejoins` | src/barrier.h:133-151 | a thread that was woken since it was OFFLINE can always rejoin |
| `BarrierProof.LeaveOk` | src/barrier.h:166-178 | leave of any running or waiting thread keeps safety and progress |
| `BarrierProof.SyncOk` | src/barrier.h:181-198 | sync keeps safety and progress |
| `BarrierProof.CleanupOk` | src/barrier.h:212-236 | compacting LEFT threads out of the run list keeps it exact and every lastIdx right |
| `BarrierProof.ShuffleKeepsSafe` | src/barrier.h:238-252 | the Fisher-Yates shuffle keeps the run list exact and every lastIdx right, for any random numbers |
| `BarrierProof.TryWakeNextOk` | src/barrier.h:256-279 | waking, ending the phase and waking again restores progress |
| `BarrierObject.SyncBarrier.WakeNext` | src/barrier.h:257-272 | one turn of the wake loop refines WakeOne |
| `BarrierObject.SyncBarrier.DoCheckRunList` | src/barrier.h:256-273 | the wake loop over the arrays refines CheckRunList |
| `BarrierObject.SyncBarrier.DoCleanup` | src/barrier.h:212-236 | the in-place compaction loop refines Cleanup, the object of CleanupOk |
| `BarrierObject.SyncBarrier.DoShuffle` | src/barrier.h:238-252 | the in-place shuffle loop refines Shuffle, the object of ShuffleKeepsSafe |
| `BarrierObject.SyncBarrier.DoCheckEndPhase` | src/barrier.h:201-253 | refines CheckEndPhase, the object of PhaseEndsComplete |
| `BarrierObject.SyncBarrier.DoTryWakeNext` | src/barrier.h:275-279 | refines TryWakeNext, the object of TryWakeNextOk |
| `BarrierObject.SyncBarrier.DoJoin` | src/barrier.h:124-163 | refines Join for every OFFLINE or LEFT thread, and keeps safety, progress and phase where JoinOk does |
| `BarrierObject.SyncBarrier.DoLeave` | src/barrier.h:166-178 | refines Leave, one step of the runs of BarrierSafety, for every running or waiting thread |
| `BarrierObject.SyncBarrier.DoSync` | src/barrier.h:181-198 | refines Sync, one step of the runs of BarrierSafety |
| `BusLog.BurstsNeverCollide` | src/detailed_mem.cpp:254-271 | with power-down off, all bursts ever issued on a channel are pairwise disjoint with the tRTRS gap, however few are remembered and in whatever order the commands come |
| `BusLog.SlotIsFree` | src/detailed_mem.cpp:254-271 | the search returns a slot clear of every remembered burst; SlotExact shows that it is the first |
| `BusLog.SlotExact` | src/detailed_mem.cpp:254-271 | the search returns exactly the first slot, from the wanted cycle on, that is clear of every remembered burst |
| `BusLog.SlotIsFirst` | src/detailed_mem.cpp:254-271 | every earlier slot, from any point of the loop on, collides with a remembered burst |
| `BusLog.RecordExact` | src/detailed_mem.cpp:197-205 | the log keeps all depth bursts in order; only when there are more, the oldest is dropped and the next stretched back to zero |
| `BusLog.StepInv` | src/detailed_mem.cpp:413-437 | recording the burst keeps every burst of the past covered by the bounded log |
| `BusLog.TrimCovers` | src/detailed_mem.cpp:201-204 | dropping the oldest entry and stretching the next one to zero forgets nothing |
| `BusLog.InsertSorts` | src/detailed_mem.cpp:198-200 | sorting the log after appending is an ordered insertion |
| `BusLog.PowerDownExact` | src/detailed_mem.cpp:413-452 | for every bus, power configuration and number of ranks: all bursts of every sequence of accesses are apart iff tXP is 0, powerDownCycle is 0 or there is one rank; and the same for accesses that arrive in order |
| `BusLog.PowerDownCollides` | src/detailed_mem.cpp:413-452 | in every other configuration, the first accesses of two powered-down ranks, arriving in the same cycle, whose bursts collide |
| `BusLog.HarmlessApart` | src/detailed_mem.cpp:413-452 | in those configurations the bursts are apart over all accesses, with the penalties the code computes |
| `BusLog.ShiftExact` | src/detailed_mem.cpp:418-437 | for every bus and every fixed penalty: two commands are always apart iff the penalty is 0 |
| `BusLog.Channel.GetPowerDownPenalty` | src/detailed_mem.cpp:442-452 | tXP exactly if power-down is on and the rank was idle for longer than powerDownCycle, else 0 |
| `BusLog.Channel.SimulateAccess` | src/detailed_mem.cpp:354-437 | penalty, slot, last access of the rank and log: one step of the runs of PowerDownExact |
| `BusLog.Channel.CalcInterIssueCycle` | src/detailed_mem.cpp:254-271 | the loop refines FindSlot; on a sorted log the issue cycle is the first whose burst is clear of every remembered one |
| `BusLog.Channel.UpdateDataBusCycle` | src/detailed_mem.cpp:197-205 | refines Record, the object of StepInv |
| `BusLog.Channel.IssueBurst` | src/detailed_mem.cpp:413-437 | one step of the runs of BurstsNeverCollide |
| `AddressMap.ComposeLocate` | src/detailed_mem.cpp:601-721 | for all interleave types, the location decodes back to the line address iff the row fits in 32 bits |
| `AddressMap.LocateCompose` | src/detailed_mem.cpp:601-721 | every location in range is the image of the address composed from it |
| `AddressMap.LocateInjective` | src/detailed_mem.cpp:601-721 | addresses whose rows fit never share a location |
| `AddressMap.PartsInRange` | src/detailed_mem.cpp:601-721 | rank, bank and channel are in range for any counts |
| `AddressMap.MapAddress` | src/detailed_mem.cpp:601-721 | the stepwise map computes the location of the layout; for each of the nine types every field is the quotient of the address by the sizes of the fields below it, modulo its own size |
| `AddressMap.MapIsLayout` | src/detailed_mem.cpp:601-721 | the nine layouts written out as quotients and remainders of the line address, and the row truncated to 32 bits |
| `AddressMap.ReturnChannel` | src/detailed_mem.cpp:1238-1280 | equals the channel of the address map, for all types and channel counts |
| `AddressMap.TakeField` | src/detailed_mem.cpp:637-705 | one mask-and-shift step takes exactly one digit |
| `AddressMap.PlacesDistinct` | src/detailed_mem.cpp:605-613 | in each layout no two fields share a place |
| `EventQueueProof.AdaptiveFires` | src/event_queue.h:48-76 | if the counter grows at most maxRate a phase: an adaptive event with any start value and any delay, inserted in any reachable state, fires exactly once, in the first phase from its first check on in which the target is reached, and passes its assertion iff the first check does, which follows from c + (d - 1) * maxRate <= target at the insertion |
| `EventTiming.BoundsExact` | src/event_queue.h:48-70 | for every event, delay d and counter value c at its insertion: it never fails the assertion on the overshoot, in any run and with any counter that keeps to its rate, iff c + (d - 1) * maxRate <= target |
| `EventTiming.OnTimeExact` | src/event_queue.h:48-76 | for every event, d and c: it always fires in the first phase after the insertion in which the target is reached iff d is 1 or c + (d - 1) * maxRate < target |
| `EventTiming.FastestOvershoots` | src/event_queue.h:66-68 | otherwise the fastest counter makes the first check fail the assertion |
| `EventTiming.FastestIsLate` | src/event_queue.h:48-76 | otherwise the fastest counter has reached the target before the first check |
| `EventTiming.DefaultInTime` | src/event_queue.h:56-60 | the period that the constructor chooses meets both conditions if the start value is not below the counter |
| `EventTiming.AdaptiveFiresOnTime` | src/event_queue.h:48-76 | so with the default delay and such a start value it always fires on time, at most maxRate past the target |
| `EventTiming.NeverOvershoots` | src/event_queue.h:65-70 | in every run in which counters keep to their rates and every adaptive event is inserted with c + (d - 1) * maxRate <= target, none ever fails the assertion, however often it is rescheduled |
| `EventQueueProof.NeverLate` | src/event_queue.h:92-110 | in every run with a tick in each phase and delays of at least one, whatever the counters do, the late-event panic is not reached |
| `EventQueueProof.DelayMatters` | src/event_queue.h:112-119 | for any event: the next tick panics iff it is inserted for the current phase after its tick |
| `EventQueueProof.NextCheck` | src/event_queue.h:57-76 | the chosen period: below the target before the next check, at most maxRate past it then; PeriodExact shows that it is the longest such period |
| `EventQueueProof.PeriodExact` | src/event_queue.h:57-76 | the period is the longest after which even the fastest counter is not past the target, but at least one phase; one phase more and the fastest counter is past it |
| `EventQueueProof.CallbackExact` | src/event_queue.h:65-75 | a callback fires iff the target is reached, and then never comes back; otherwise it comes back after exactly that period |
| `EventTiming.ChecksAreSparse` | src/event_queue.h:65-75 | while the target is k * maxRate away any two checks are at least k phases apart, for every counter that keeps to its rate |
| `EventTiming.FastestFewChecks` | src/event_queue.h:65-75 | a counter at its full rate is checked at most twice before the event fires |
| `EventTiming.PlainRecurs` | src/event_queue.h:92-119 | a periodic event, inserted in any reachable state, is called back in its first phase and every period after it |
| `EventQueueProof.TickReady` | src/event_queue.h:92-110 | tick handles everything due, keeps the rest, and re-inserts in the future |
| `EventQueue.TurnDue` | src/event_queue.h:96-107 | each turn leaves one due item fewer, so tick terminates |
| `EventQueue.Queue.DoTick` | src/event_queue.h:92-110 | the loop refines Tick, the object of TickReady, and terminates |
| `EventQueue.Queue.RunCallback` | src/event_queue.h:65-75 | refines Callback, whose firing and period CallbackExact fixes |
| `EventQueue.Queue.DoInsert` | src/event_queue.h:112-119 | refines Insert, one step of the runs of AdaptiveFires |
| `EventQueue.Queue.Put` | src/event_queue.h:103 | a multimap insertion, behind items for the same phase |

## Left out

- Requests that bypass or special-case the protocol: page-table walks, instruction fetches and prefetches at the directory, PUTX_KEEPEXCL, the non-inclusive mode, clflush, FWD and non-cacheable accesses.
- The write-through mode and the IV controllers, and the ideal directory array.
- The filter cache in front of the L1, whose invalidation compares virtual with physical addresses.
- The directory tells nobody that a child wrote dirty data back during a GET, so the dirtiness theorem is stated for the MESI cache hierarchy only.
- A directory child is a terminal cache in the model; deeper caches below the directory are not.
- Latencies, round-trip times, statistics, tracing, and the replacement policies themselves.
- The MESI model follows one line; that a cache evicts one line to make room for another is an eviction step that may happen at any time.
- Futex system calls and memory ordering; the contention simulator, whose only contract is that a queued event fires with the cycle it was queued for.
- In the DDR controller: responses to the cores, the mapping of line addresses to banks, tREFI, and the technology tables. tRRD is claimed per bank only, as the code enforces it.
- Overflow of 64-bit cycle arithmetic.
- Power and energy estimates of the detailed memory model, its accounting of the time spent in power-down, and its bank constraints; an access carries the cycle from which they allow it.
- Hash families are not shown to be power-of-two masks; a mask of the hash is a remainder.
- BusLog.BurstsNeverCollide: for runs without a power-down penalty; PowerDownExact has the condition for runs with one.
- BarrierTheorems.BarrierSafety: for runs in which every rejoin meets the condition of SafetyExact, which is exact.
- BarrierTheorems.BarrierProgress: over the same runs as BarrierSafety, with at least one parallel thread.
- BarrierTheorems.JoinKeepsPhase: over the same runs as BarrierSafety.
- BarrierExact.PhasesOfEveryRun: over the same runs as BarrierSafety.
- BarrierExact.RunAhead: over the same runs as BarrierSafety.
- DdrTiming.TimingOfEveryRun: a refresh may start tRP before the previous one is done, because the code discounts tRP from the end of a refresh for the next precharge.
- DdrDrain.RequestsServed: without refreshes while the requests drain.
