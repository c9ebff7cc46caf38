# The entity component store, in Dafny

This project models the storage engine of an entity component system and proves what it keeps. Entities live in rows
of fixed-capacity chunks, chunks belong to archetypes (one for each strictly sorted list of component types), and many
redundant indexes have to stay in step with the rows: the entity table, the chunk lists with their back-indexes, the
index of chunks with room, the hash maps, the entity counts, the reference counts of shared values, and the query
caches. Worker threads run jobs over those chunks, and threads allocate and free handles concurrently. The vendored
red-black tree is modelled as well.

Run `dafny verify dfyconfig.toml` in this directory.

## How it is organised

| part | modules |
|---|---|
| handles and the entity table | `EntityBlocks` (bitmap, versions, places of one block), `EntityStore` (one thread), `BlockProtocol` (any number of threads: what is safe), `BlockCalls` (what the calls achieve) |
| rows | `Types`, `Archetypes`, `Layout`, `EntityRows` (rows and table agree, step by step), `EntityMoves`, `ChunkColumns`, `ChunkTracking`, `EntityCounts`, `SharedIndices`, `EntityComponentStore` |
| hash maps | `Probing`, `ChunkListMap` (a part of each archetype in `ChunkTracking`), `ArchetypeListMap`, `InternTable`, `SharedReferences` |
| chunk metadata | `ChunkData` |
| queries | `QueryMatching`, `ChangedList`, `Queries` |
| jobs | `WorkerLoop`, `Scheduling`, `ComponentDependencies`, `Phases`, `JobCuts`, `JobOverlap`, `Requests` |
| red-black tree | `TreeShape`, `TreeSteps`, `TreeRemoval`, `RedBlack`, `TreeMeaning` |
| | `Collections` (shared small facts) |

The specification of the store is `EntityRows.Entities`: a map from each live handle to its type list, the value of
each stored component, and its shared values. `EntityComponentStore.Store.Valid` ties rows, tracking and entity table
together; each public method keeps it and says what becomes of that map and of the multiset `destructed`, which holds
one entry for each destructor call ever made. `Store.View` puts the parts together as the value the lemmas of
`EntityRows` and `EntityMoves` speak about.

What the code reads from elsewhere is a parameter: the hash functions, the capacity the layout gives a type list
(`capacityOf`), what fresh chunk memory holds (`memory`: anything), the default index of a shared type, and what the
code reads from memory it has not written or beyond an array (`memory` and `beyond` of single methods). Fresh chunk ids
come from a supplier. Handles have unbounded versions. A type id is a number with the flags as bits above the index, and
`Entity` is the least.

The single-threaded classes are written in the source's form: fields, loops over them, and updates in place. The two
concurrent machines (`BlockProtocol`, `WorkerLoop` with `Phases`) are step functions: each atomic operation is one step
of one thread, and a run is any interleaving.

## Findings

Each is a property one would expect and that the code does not have, with an input or a run that shows it and the
condition under which it holds.

- Destructors. The store finds the managed components of an archetype by a scan that stops at the first sized type
  without the managed bit, and the bit for asset references is the higher one. `Types.DisposedExactly`: the types whose
  destructors it calls are the managed ones iff no sized type without the managed bit follows a managed one.
  `Types.BrokenByAssets`: for registered types that is iff the list does not hold both a plain managed type and a type
  with asset references only. `Types.AssetsBreakTheRun`: a list of three types where nothing is ever destroyed. All
  results about destructor calls speak of `Disposed`, the types the code really calls destructors for.
- Conflicting jobs are not ordered. The handles to wait for are collected
  (`ComponentDependencies.CollectedExactly`), but combineDependencies ignores those of level 0
  (`Scheduling.CombinedHighest`), so by induction every job the engine schedules has level 0 and depends on nothing
  (`Phases.NoDependencies`, `ComponentDependencies.Manager.ScheduleJob`), whatever the queries read and write. For any
  two jobs of any schedule there is a reachable state in which two workers run them at the same time, even if both
  write the same component (`JobOverlap.ConflictingJobsOverlap`).
- Levels above 0 never run. Nothing raises the reader level (src/ECS/ThreadPool.cpp:329 only clears it). A job passed
  to `JobsUtility::schedule` with a dependency of its own, which the engine's builder never does, blocks the loop
  (`Phases.DependentJobBlocks`), in a state that is reachable and recurs (`Phases.DependentJobRecurs`); a job's batches
  run iff its level is 0 (`Phases.QuietRound`). The model takes such a call to come while the schedule is built; a
  system can only make it while systems iterate, and then the workers are launched on an order and begin indexes that
  prepareJobs has not written, which is not modelled.
- A query without chunks gives a batch count or step size of 0, which `schedule` refuses with an exception, inside a
  work item: scheduling succeeds iff there is a chunk, room in the arrays, and a dependency scheduled before
  (`Scheduling.JobArrays.ScheduleChunks`).
- Stale handles. Adding or removing a component goes by the slot of the handle and not by its version
  (src/ECS/EntityStore.cpp:66-73). The contracts of `AddComponent`, `RemoveComponent` and `AddComponents` say which
  entity changes: the occupant of the slot, which is the handle's own iff the handle is live
  (`EntityComponentStore.Store.OccupantIsLive`). `EntityStore.SlotHistory` is a slot taken, freed and taken again: the
  first handle is stale, and what it names by its slot is another live entity.
- Parity. `exists` compares versions and does not look at their parity (src/ECS/EntityStore.cpp:37-49): it accepts the
  live handles and those whose even version is the slot's current one while a place is still recorded
  (`EntityComponentStore.Store.ExistsExactly`); the lookup fails for exactly these
  (`EntityComponentStore.Store.Lookup`), `EntityStore.SlotHistory` gives one, and freeing under such a version breaks
  "a bit is set iff the version is odd" (`EntityBlocks.FreeSlot`).
- The first archetype that is tracked keeps a null link. `ChangedList.TrackCloses`: tracking closes the list into a
  cycle iff it tracks again the one archetype in it whose link is null; `ChangedList.CycleArises` is such a sequence.
  The drain still ends and reaches every tracked archetype (`Queries.Manager.CleanChangeList`).
- The duplicate check of the hash maps stops at the first reusable slot. `Probing.DuplicateNoticed`: a duplicate is
  noticed iff an entry of the item has no free slot before it on its chain. `Probing.DuplicateUnnoticed`: two items
  with the same home slot, of which the first is removed and the second added again; it is filed twice then, no
  back-index fits both entries, and removing either leaves it filed.
- One shared component. addComponent moves its output pointer on in the loop that also counts, so after the new shared
  value one word of the array on the stack is not written; removeComponent moves it back, so the last word is not.
  `EntityComponentStore.AddedKept` and `RemovedKept`: the entity keeps its other shared values iff the component added
  or removed is above all shared ones it has, or that word holds the right value by chance.
  `SharedIndices.MiddleValueLost` is such an addition and such a removal.
- Removing several components. The new type list is read from the list of components to remove and not from the
  archetype (src/ECS/EntityComponentStore.cpp:568). So removeComponents never removes anything:
  `EntityComponentStore.Store.RemoveComponents` succeeds iff none of the components is there, and throws otherwise.
- Interning a value that fills the table. The arrays are replaced by bigger ones and the value is then written to the
  old ones, which have been freed (src/ECS/SharedComponentStore.cpp:184-206); the model takes these writes to be lost.
  `InternTable.Table.Insert`: insertion
  works iff the value is live already or there is room; otherwise the value is not in the table afterwards, the count
  has gone up, and no list of dead slots is right any more (`InternTable.SlotLost`). The same count goes up when the
  index would be too big and the insertion throws.

## Model

| member | source | states |
|---|---|---|
| EntityBlocks.FreeSlot | src/ECS/EntityStore.cpp:213-224 | Freeing a slot under a version takes exactly one set bit away if the version is current and odd, and none if it is stale; the slot stays in order iff the version is not a current even one. |
| EntityBlocks.TakeSlot | src/ECS/EntityStore.cpp:114-129 | Taking a slot adds exactly one set bit and keeps "a bit is set iff the version is odd". |
| EntityBlocks.CountBound | src/ECS/EntityStore.cpp:80-85 | The count reaches the block size exactly when no slot is clear, so a block that is not full always has a slot to give. |
| EntityStore.Store.AllocateEntities | src/ECS/EntityStore.cpp:74-146 | Hands out the asked number of handles iff that many slots are free, and they are the lowest free ones; each handle's version is odd and one above what the slot had, rows are consecutive, no other slot changes; when the table runs out it stops with what it has. |
| EntityStore.Store.DeallocateEntities | src/ECS/EntityStore.cpp:147-231 | Whatever the order, the repetitions, the stale handles and the grouping into runs of consecutive slots: exactly the slots whose current handle is listed move to the next version; stops at the first handle out of range. |
| EntityStore.Store.FreeRange | src/ECS/EntityStore.cpp:170-230 | One run of slots of one block, including the skip of a block that counts no entity, frees exactly the listed current handles. |
| EntityStore.Store.GetEntityInChunk | src/ECS/EntityStore.cpp:66-73 | Gives the recorded place iff the slot is allocated, whatever the handle's version. |
| EntityStore.Store.SetEntityInChunk | src/ECS/EntityStore.cpp:50-57 | Changes the place of one live handle and nothing else; fails without a change if the slot is free. |
| EntityStore.FillBlock | src/ECS/EntityStore.cpp:107-136 | The bitmap scan hands out the asked number of new handles of the block, the lowest clear slots, at consecutive rows, adds as many set bits, and touches no other slot. |
| EntityStore.AllocatePlaces | src/ECS/EntityStore.cpp:107-136 | After an allocation exactly the old and the new handles are live, at the rows given; none of the new ones was ever issued. |
| EntityStore.FreePlaces | src/ECS/EntityStore.cpp:149-224 | After a deallocation the live handles are the old ones without the listed ones, all at the places they had; what was issued stays issued. |
| EntityStore.IssuedForever | src/ECS/EntityStore.cpp:37-49 | Over any run of allocations and deallocations an issued handle stays issued. |
| EntityStore.NeverReissued | src/ECS/EntityStore.cpp:107-136 | Over any run no handle is handed out by two calls. |
| EntityStore.SlotHistory | src/ECS/EntityStore.cpp:107-224 | A slot taken, freed and taken again: the first handle is issued and stale, the slot is another live handle's; in between an even version with its place passes the existence test. |
| BlockProtocol.NextKeeps | src/ECS/EntityStore.cpp:74-231 | Every atomic step of every thread, in allocation or deallocation, keeps the protocol invariant: what is safe. What the calls achieve is in the rows of BlockCalls. |
| BlockProtocol.ProtocolSafe | src/ECS/EntityStore.cpp:74-231 | In every state of every interleaving: no block has two owners, a count that is not Busy equals the set bits of its block, no thread has reached one of the error throws, and no handle was handed out twice. |
| BlockProtocol.ExchangeSeesTruth | src/ECS/EntityStore.cpp:80-92 | A compare-exchange that succeeds swapped out the true number of set bits, however often other threads changed the count and back since it was loaded. |
| BlockProtocol.ClearBitExists | src/ECS/EntityStore.cpp:107-138 | The inner fill loop of an owner that still has slots to take always finds a clear bit. |
| BlockProtocol.QuiescentIntegrity | src/ECS/EntityStore.cpp:13-36 | When no thread owns a block, the integrity check passes for every block. |
| BlockProtocol.RunInv | src/ECS/EntityStore.cpp:74-231 | The invariant holds in every state of every run from the empty store. |
| BlockCalls.NextLive | src/ECS/EntityStore.cpp:107-224 | A step of a thread makes live exactly the handle it hands out, and ends exactly the one it frees. |
| BlockCalls.FreedWhenDone | src/ECS/EntityStore.cpp:147-231 | Over any run: when a thread that was asked to free handles is idle again, none of them is live, whatever the other threads did meanwhile, and none ever will be. |
| BlockCalls.LiveUntilFreed | src/ECS/EntityStore.cpp:147-231 | Over any run: a handle handed out that is not live any more was listed by a call to free. |
| BlockCalls.HandsOut | src/ECS/EntityStore.cpp:74-146 | Over any run: a thread that was asked for n handles and is idle again has itself handed out exactly n, distinct and logged since; one that ran out of blocks has handed out fewer. |
| BlockCalls.TakenOnce | src/ECS/EntityStore.cpp:107-136 | Over any run a handle is handed out by one thread. |
| BlockCalls.GivesUpLast | src/ECS/EntityStore.cpp:78-146 | A call that gives up has found every block busy or full, lost the exchange for it, or filled it. |
| BlockCalls.CallsGetOn | src/ECS/EntityStore.cpp:74-231 | Each step of a call lowers a natural number; only a thread that frees may have to try again, and then its block was busy or has changed. |
| WorkerLoop.NextKeeps | src/ECS/ThreadPool.cpp:358-392 | Every atomic step of every worker keeps: no batch is started twice, none of a job above the reader level is started, and each job's executed chunks are those of its finished batches. |
| WorkerLoop.QuietComplete | src/ECS/ThreadPool.cpp:358-403 | When every worker has left after finding nothing to do, each batch of each job has finished exactly once if the job's level allowed it, else never. |
| WorkerLoop.QuietExecutedOnce | src/ECS/JobChunk.cpp:8-49 | Then each cached chunk of such a job was executed exactly once, for both ways of cutting chunks into batches. |
| WorkerLoop.StepLowersMeasure | src/ECS/ThreadPool.cpp:363-391 | Each step of a worker inside the loop lowers one natural number, whatever the interleaving, so all workers return. |
| Scheduling.JobArrays.Schedule | src/ECS/ThreadPool.cpp:72-94 | A job is appended one level above the job it depends on, or refused without a change: for an empty batch or step, a full array, or a dependency not scheduled before. |
| Scheduling.JobArrays.ScheduleChunks | src/ECS/JobChunk.cpp:8-33 | schedule makes one batch of all cached chunks, scheduleParallel one batch for each; they succeed iff there is a cached chunk, room in the arrays, and a dependency scheduled before. |
| Scheduling.CombinedHighest | src/ECS/ThreadPool.cpp:108-123 | The combined handle is null iff every handle is null or of level 0; else it is the first one of the highest level. |
| Scheduling.JobArrays.CombineDependencies | src/ECS/ThreadPool.cpp:108-123 | The loop gives that handle, and refuses exactly the lists with a handle past the next job. |
| Scheduling.JobArrays.PrepareJobs | src/ECS/ThreadPool.cpp:95-107 | The order lists each job once, by level, and all begin indexes are zero. |
| Scheduling.DependencyFirst | src/ECS/ThreadPool.cpp:95-107 | In that order a job comes after the job it depends on. |
| ComponentDependencies.Manager.GetDependency | src/ECS/ComponentDependencyManager.cpp:28-61 | Whatever jobs the buffer holds and whatever the query asks, the dependency is the null handle; a query of 32 types or more is refused. |
| ComponentDependencies.CollectedExactly | src/ECS/ComponentDependencyManager.cpp:34-59 | The handles it combines are exactly the write fences of the types of the query and the read fences of those it writes. |
| ComponentDependencies.Manager.AddDependency | src/ECS/ComponentDependencyManager.cpp:62-90 | Records the job under every type of the query; fails iff a type without size comes up that has no entry; no array of read fences overflows, and every fence is null or a scheduled job. |
| ComponentDependencies.NotedAllRecords | src/ECS/ComponentDependencyManager.cpp:62-90 | After that each written type has the job as write fence and each read type has it as last read fence, or has only the null handle that a full array was combined into; the fences of other types are as they were. |
| ComponentDependencies.Manager.ScheduleJob | src/ECS/JobChunk.cpp:8-33 | The chunk job that is appended depends on nothing and has level 0, whatever was scheduled before. |
| ComponentDependencies.Manager.BuildSchedule | src/ECS/ThreadPool.cpp:326-357 | A built schedule has one independent chunk job for each request, in order and cut the way it asks, and arrays prepared for the workers. |
| Phases.ApplyKeeps | src/ECS/ThreadPool.cpp:213-357 | Every action of event loop, builder and workers keeps the phase invariant. |
| Phases.PhasesExclude | src/ECS/ThreadPool.cpp:213-357 | In every reachable state at most one of "systems iterating", "schedule being built" and "workers running" holds, activeThreads counts the participants that have not left, and the exchange in queue_jobs has never failed. |
| Phases.ResetsSeenByNoWorker | src/ECS/ThreadPool.cpp:326-338 | Whenever a step replaces the job arrays or rewinds the read index, no worker is inside the loop. |
| Phases.QuietRound | src/ECS/ThreadPool.cpp:393-403 | Whenever nobody participates, or systems iterate, or the next schedule is queued, every batch of every job has finished exactly once if its level is 0, else never. |
| Phases.RoundComplete | src/ECS/ThreadPool.cpp:393-403 | While systems iterate, and when the next schedule is queued, every cached chunk of every job of the last schedule has been executed exactly once. |
| Phases.NoDependencies | src/ECS/ThreadPool.cpp:108-123 | In a run whose schedules are built from chunk jobs, whatever fences they meet, every job has level 0 and depends on nothing. |
| Phases.EveryChunkOnce | src/ECS/ThreadPool.cpp:358-403 | In such a run every cached chunk of every job is executed exactly once before systems iterate or the next schedule is built. |
| Phases.ComesBack | src/ECS/ThreadPool.cpp:358-403 | In such a run the loop comes back to the systems: while workers are out some step proceeds, and each that does lowers a natural number or reaches the systems. |
| Phases.DependentJobBlocks | src/ECS/ThreadPool.cpp:374-376 | While a job above level 0 is in the arrays, no batch of it has run, systems do not iterate and no new schedule is built. |
| Phases.DependentJobRecurs | src/ECS/ThreadPool.cpp:358-403 | A reachable state with such a job, scheduled directly, and the three steps that lead from it back to it. |
| JobCuts.SerialAlone | src/ECS/JobChunk.cpp:8-20 | In every reachable state at most one worker runs a job scheduled as not parallel. |
| JobCuts.ExecutesAsCut | src/ECS/JobChunk.cpp:21-49 | A batch of a job scheduled as parallel executes exactly the chunk of its number, the batch of another job all its cached chunks, and neither a chunk of any other job. |
| Requests.NeverForgotten | src/ECS/ThreadPool.cpp:205-222 | In no reachable state does the loop sleep on a request whose wake-up has come already, although a wake-up that comes during another phase has no effect. |
| Requests.AskedUntilServed | src/ECS/ThreadPool.cpp:230-285 | A request stays until a pass over the systems serves it: exit before all others, the timer before rendering. |
| Requests.ExitStops | src/ECS/ThreadPool.cpp:230-250 | After a request to exit, or a system that throws, the next pass stops the loop, and it stays stopped. |
| Requests.ScheduleBuilt | src/ECS/ThreadPool.cpp:286-300 | A schedule the systems ask for is built before they iterate again. |
| JobOverlap.ConflictingJobsOverlap | src/ECS/ThreadPool.cpp:326-392 | For any two jobs of any schedule of queries with chunks, cut either way, in any order prepareJobs may leave, and any two workers, a state is reachable in which one runs the first batch of the one job and the other that of the other. |
| Probing.Find | src/ECS/ChunkListMap.cpp:118-141 | The probe over tombstones finds a wanted item filed under the hash if there is one anywhere in the table, and ends even in a table without an unused slot. |
| Probing.HomeIsRemainder | src/ECS/ChunkListMap.cpp:68-104 | The home slot is the remainder of the hash, which for a power of two is the masked hash. |
| Probing.FindFree | src/ECS/ChunkListMap.cpp:68-108 | The probe for a new item gives the first slot of its chain that is free or holds the item; full means that no slot is free and the item is nowhere. |
| Probing.OneAnswer | src/ECS/ChunkListMap.cpp:68-108 | There is one such answer. |
| Probing.DuplicateNoticed | src/ECS/ChunkListMap.cpp:97-100 | A duplicate is noticed iff an entry of the item has no free slot before it on its chain. |
| Probing.DuplicateUnnoticed | src/ECS/ChunkListMap.cpp:68-117 | An item filed behind a tombstone is filed a second time; no back-index fits then, and removing either entry leaves it filed. |
| Probing.WriteEntry | src/ECS/ChunkListMap.cpp:76-104 | Writing an item into that slot adds exactly it to the entries and keeps every entry reachable from its home slot. |
| Probing.EraseEntry | src/ECS/ChunkListMap.cpp:109-117 | A tombstone takes exactly one entry away, frees one slot, and keeps the others reachable. |
| Probing.Rehash | src/ECS/ChunkListMap.cpp:24-47 | Filing all entries anew keeps the set of entries and the number of occupied slots, and gives each its new back-index. |
| Probing.MoveSlot | src/ECS/ChunkListMap.cpp:24-32 | While entries are filed anew the new table stays at least a third free, so no re-adding asks for another resize. |
| ChunkListMap.Add | src/ECS/ChunkListMap.cpp:68-108 | The chunk joins the members; the map doubles iff less than a third of the slots is left free, afterwards a third is, and every back-index locates its chunk. |
| ChunkListMap.Remove | src/ECS/ChunkListMap.cpp:109-117 | The chunk leaves the members through its back-index, which becomes -1; the map halves iff less than a third of the slots is used, down to the minimum size; reports whether the chunk was there. |
| ChunkListMap.TryGet | src/ECS/ChunkListMap.cpp:118-141 | Finds a member with an equal key iff there is one. |
| ChunkListMap.Contains | src/ECS/ChunkListMap.cpp:142-145 | True iff the chunk is a member. |
| ChunkListMap.Resize | src/ECS/ChunkListMap.cpp:38-47 | Growing or shrinking keeps the members and stops at the minimum size. |
| ChunkListMap.MemberAt | src/ECS/ChunkListMap.cpp:109-117 | A chunk is a member iff the slot its back-index names holds it. |
| ArchetypeListMap.Map.Add | src/ECS/ArchetypeListMap.cpp:49-87 | The archetype joins the members; the map doubles iff less than a third of the slots is left free, and afterwards a third is. |
| ArchetypeListMap.Map.Remove | src/ECS/ArchetypeListMap.cpp:88-95 | The archetype leaves the members; the map halves iff less than a third of the slots is used; reports whether the archetype was there. |
| ArchetypeListMap.Map.TryGet | src/ECS/ArchetypeListMap.cpp:96-116 | Finds a member with an equal type list iff there is one. |
| ArchetypeListMap.Map.IndexOf | src/ECS/ArchetypeListMap.cpp:117-138 | Finds the slot of an archetype iff it is a member. |
| ArchetypeListMap.Map.Resize | src/ECS/ArchetypeListMap.cpp:32-41 | Growing or shrinking keeps the members. |
| InternTable.Table.TryFind | src/ECS/SharedComponentStore.cpp:154-176 | Finds the element of an equal live value iff there is one. |
| InternTable.Table.Insert | src/ECS/SharedComponentStore.cpp:132-220 | An equal live value gives its element one more reference; a new one for which there is room takes the head of the free chain, else the slot above the count, with one reference and a new version; no other element changes. Without room the value is lost and the table is broken. |
| InternTable.SlotLost | src/ECS/SharedComponentStore.cpp:177-206 | A slot that is counted and never made live is on no list of dead slots, so no table with it is right. |
| InternTable.PopFree | src/ECS/SharedComponentStore.cpp:177-180 | The head of the free chain was dead, and what is left is the chain of all other dead slots below the count. |
| InternTable.PushFree | src/ECS/SharedComponentStore.cpp:256-262 | A dying slot joins the chain: chained slots stay distinct, dead and below the count. |
| InternTable.DeadAtTop | src/ECS/SharedComponentStore.cpp:256-258 | A dying slot at the top is reclaimed by lowering the count instead, and the chain is still right. |
| InternTable.Table.AddReference | src/ECS/SharedComponentStore.cpp:228-241 | Adds references to one live element; refuses a dead one and an index beyond the count; element 0 is pinned. |
| InternTable.Table.RemoveReference | src/ECS/SharedComponentStore.cpp:242-292 | Takes references away; the element and its value are gone exactly when none is left, and its slot is then given back by lowering the count if it is the top one, else as the new head of the free chain; refuses more than there are. |
| InternTable.Table.IncrementVersion | src/ECS/SharedComponentStore.cpp:293-303 | A new version for one live element, with the table and its free chain intact; refuses exactly a dead element and an index beyond the count. |
| InternTable.OnlyLiveStamped | src/ECS/SharedComponentStore.cpp:293-303 | Why it has to refuse: with a new version in a dead element no list of dead slots is chained any more. |
| InternTable.Table.Resize | src/ECS/SharedComponentStore.cpp:37-96 | Doubles the table; every live value, element and count is kept, and there is room for an insertion. |
| SharedReferences.Ledger.Intern | src/ECS/SharedComponentStore.cpp:132-220 | For each element of a shared type, the count stays the number of references callers hold plus the number of chunks whose row of shared values, as the tracking has it, names the element, iff the value was live or there was room. |
| SharedReferences.Ledger.GiveBack | src/ECS/SharedComponentStore.cpp:242-292 | The same for a caller that gives a reference back. |
| SharedReferences.Ledger.AddEmptyChunk | src/ECS/Archetype.cpp:437-444 | The same for a new chunk, which takes a reference for each of its shared values. |
| SharedReferences.Ledger.Recount | src/ECS/Archetype.cpp:128-173 | The same for setChunkCount, which every allocation, deallocation and move ends in: another count changes no reference, and a chunk that is released gives all of its references back. |
| SharedReferences.Ledger.LiveExactly | src/ECS/SharedComponentStore.cpp:242-292 | So a value is live iff it is the default one, a caller holds a reference, or a chunk's row names it: no row names a dead value. |
| ChunkData.CellsApart | src/ECS/ArchetypeChunkData.cpp:5-59 | Different columns or rows never share a cell. |
| ChunkData.CellInside | src/ECS/ArchetypeChunkData.cpp:5-59 | Every cell lies inside its buffer. |
| ChunkData.CellIsProduct | src/ECS/ArchetypeChunkData.cpp:5-59 | The cell of a column and a row is at column times stride plus row, the index the methods compute. |
| ChunkData.SetCell | src/ECS/ArchetypeChunkData.cpp:12-59 | Writing a cell changes one column of one row. |
| ChunkData.ReadRow | src/ECS/ArchetypeChunkData.cpp:48-53 | Following a reference, from the first value on by the stride, reads the row it refers to. |
| ChunkData.StaleReference | src/ECS/Archetype.cpp:15-23 | Why a reference has to be made anew after a growth: with every row kept, the old stride may lead to another value than the row's. |
| ChunkData.ArchetypeChunkData.GetSharedComponentValues | src/ECS/ArchetypeChunkData.cpp:48-53 | The reference to a row stands for the row's shared values; refuses exactly an index beyond the rows. |
| ChunkData.ArchetypeChunkData.Grow | src/ECS/ArchetypeChunkData.cpp:80-144 | A new capacity, and so a new stride, keeps every row. |
| ChunkData.ArchetypeChunkData.Add | src/ECS/ArchetypeChunkData.cpp:66-79 | Appends one row. |
| ChunkData.ArchetypeChunkData.AddToChunkList | src/ECS/Archetype.cpp:7-31 | Appends the shared values as they were before a growth, even if they were handed in as a reference into the buffer that growth replaces. |
| ChunkData.ArchetypeChunkData.RemoveAtSwapBack | src/ECS/ArchetypeChunkData.cpp:145-162 | Replaces the row by the last one and drops the last; refuses an index beyond the rows. |
| Layout.CalculateChunkCapacity | src/ECS/EntityComponentStore.cpp:38-47 | The capacity is the largest: n entities fit the buffer in cache-line-rounded columns iff n is at most it, and in a buffer of whole cache lines no aligned, disjoint columns in list order are possible for more. |
| Layout.NoBetterLayout | src/ECS/EntityComponentStore.cpp:27-47 | Any aligned, disjoint columns in list order inside a buffer of whole cache lines leave room for the rounded ones. |
| Layout.TooMany | src/ECS/EntityComponentStore.cpp:38-47 | The search may start at buffer size divided by total size: nothing above it fits. |
| Layout.LayOut | src/ECS/EntityComponentStore.cpp:139-147 | Column offsets are 64-aligned, columns are pairwise disjoint, inside the buffer and less than a cache line apart, and up to the cap on entities in a chunk no such layout holds more. |
| ChunkTracking.FillUp | src/ECS/Archetype.cpp:155-158 | A chunk that becomes full leaves the index of chunks with room, and list and header indexes agree. |
| ChunkTracking.OpenUp | src/ECS/Archetype.cpp:159-163 | A full chunk that loses entities enters the index, and they agree. |
| ChunkTracking.RoomsFollow | src/ECS/Archetype.cpp:148-173 | Through setChunkCount and releaseChunk the hash map of each archetype with shared components keeps filing, under their shared values, exactly its chunks with room. |
| ChunkTracking.RoomIndexed | src/ECS/Archetype.cpp:72-101 | In an archetype with shared components a chunk has room iff the slot of the hash map that its back-index names holds it, filed under the hash of its shared values. |
| ChunkTracking.UnlistFull | src/ECS/Archetype.cpp:32-45 | Taking a chunk off the list by swap-back keeps the agreement, and every other chunk's shared values, its key in the hash map, stay the same although its list index may change. |
| ChunkTracking.SetCountRecounts | src/ECS/Archetype.cpp:148-173 | setChunkCount, in all its branches, changes what can be observed of one chunk only: its count, or its existence when the count is 0. |
| ChunkTracking.CountAdjusted | src/ECS/Archetype.cpp:148-204 | With the archetype's entity count adjusted, the count is again the sum of the chunk counts and no chunk is empty. |
| ChunkTracking.Tracker.SetChunkCount | src/ECS/Archetype.cpp:148-173 | The method equals that transition of the tracking. |
| ChunkTracking.Tracker.ReleaseChunk | src/ECS/Archetype.cpp:128-147 | A released chunk leaves the list and the index. |
| ChunkTracking.Tracker.AddEmptyChunk | src/ECS/Archetype.cpp:430-462 | A new chunk is listed and tracked as having room; nothing else changes. |
| ChunkTracking.Tracker.GetExistingChunkWithEmptySlots | src/ECS/Archetype.cpp:82-101 | Gives a chunk of the archetype with these shared values and room iff there is one: the last of the empty-slot list, or what probing the hash map finds. |
| ChunkTracking.Tracker.AllocateIntoChunk | src/ECS/Archetype.cpp:197-204 | Takes the lesser of the room and the number wanted, at the end of the chunk. |
| ChunkTracking.Tracker.TakeFromChunk | src/ECS/Archetype.cpp:243-275 | The chunk loses its last rows, and goes away with its last one. |
| ChunkTracking.SharedWidth | src/ECS/Archetype.cpp:430-462 | Every chunk has one shared value for each shared component of its archetype. |
| Types.SortedUnique | src/ECS/ArchetypeListMap.cpp:96-116 | A set of types has one sorted list. |
| Types.HighFlags | include/ECS/Base/TypeID.hpp:192-193 | Comparing with the two highest flags tells the same as testing their bits. |
| Types.FirstIndices | src/ECS/EntityComponentStore.cpp:105-115 | The backward scan finds where tag and shared types start, and the longest run of sized types with the managed bit in front of them. |
| Types.DisposedExactly | src/ECS/EntityComponentStore.cpp:105-115 | The types of that run are all managed types of the list iff no sized type without the managed bit follows one. |
| Types.BrokenByAssets | include/ECS/Base/TypeID.hpp:51-60 | For registered types that happens iff the list holds a managed type without asset references and a type with asset references that is not managed. |
| Types.AssetsBreakTheRun | src/ECS/EntityComponentStore.cpp:105-115 | A legal list with a managed type for which the store calls no destructor at all. |
| Types.MergeUnion | src/ECS/EntityComponentStore.cpp:465-506 | The merge of two sorted lists from the back is the sorted union. |
| Types.MergeLength | src/ECS/EntityComponentStore.cpp:500-503 | The merged list is as long as the source list iff no type is new. |
| Types.MergeBackwards | src/ECS/EntityComponentStore.cpp:475-495 | The in-place loop from the back of the array leaves, with what it has not moved, exactly that merge. |
| Types.WithAddedComponents | src/ECS/EntityComponentStore.cpp:465-506 | The sorted union of both lists; nothing iff no type is new. |
| Types.WithAddedComponent | src/ECS/EntityComponentStore.cpp:507-530 | The sorted list with one more type and its index; nothing iff it is there. |
| Types.WithRemovedComponent | src/ECS/EntityComponentStore.cpp:531-550 | The sorted list without a type and the index it had; nothing iff it is not there. |
| Types.WithRemovedComponents | src/ECS/EntityComponentStore.cpp:551-574 | For each type that stays the list gets what stands at its place in the list of types to remove, or beyond it; nothing iff no type is common. |
| Types.MisreadFirst | src/ECS/EntityComponentStore.cpp:551-574 | So if the first type stays the list begins with the first type to remove. |
| Types.AddThenRemove | src/ECS/EntityComponentStore.cpp:507-550 | Adding an absent type and then removing it gives back the same list. |
| Archetypes.Table.GetOrCreateArchetype | src/ECS/EntityComponentStore.cpp:157-162 | Equal type lists give the same archetype, different lists different ones; at most one is created; exactly an illegal list is refused. |
| Archetypes.Table.CreateArchetype | src/ECS/EntityComponentStore.cpp:68-156 | Creates the archetype iff the list starts with Entity and is otherwise legal. |
| Archetypes.SharedCount | src/ECS/EntityComponentStore.cpp:105-115 | The number of shared types found by counting is what lies behind the first shared index. |
| EntityRows.LocationAgreement | src/ECS/EntityStore.cpp:37-57 | A handle is live iff some row in use stores it; that row is then the only one, and the entity table names exactly it. |
| EntityRows.NewChunkStep | src/ECS/EntityComponentStore.cpp:219-236 | A new chunk, whatever its memory holds, changes no entity. |
| EntityRows.WriteStep | src/ECS/Archetype.cpp:463-489 | Writing to rows that are nobody's changes no entity. |
| EntityRows.RepointStep | src/ECS/Archetype.cpp:476-486 | Sending the table entries of a batch to copied rows turns the old rows into the hole and keeps the agreement. |
| EntityRows.FillStep | src/ECS/EntityComponentStore.cpp:353-374 | Fill-from-tail moves the hole to the end of the chunk and changes no entity. |
| EntityRows.ShrinkStep | src/ECS/Archetype.cpp:226-275 | Giving up a hole at the end of the chunk changes no entity. |
| EntityRows.FreeStep | src/ECS/EntityComponentStore.cpp:344-352 | Freeing a batch's handles removes exactly those entities and leaves their rows as the hole. |
| EntityRows.BindStep | src/ECS/EntityComponentStore.cpp:332-343 | New handles take the first rows of the hole, what is left of it stays nobody's, and the other entities stay as they are. |
| EntityMoves.CloneAgrees | src/ECS/Archetype.cpp:463-489 | After clone, rows and table agree but for the hole that the batch left. |
| EntityMoves.CloneMoves | src/ECS/Archetype.cpp:463-489 | clone puts exactly the entities of the batch into the destination archetype: the sized types have the value there was, and zero if they are new; all other entities are as they were. |
| EntityMoves.CloseHole | src/ECS/Archetype.cpp:243-275 | remove closes the hole and changes no entity. |
| EntityMoves.MoveEffect | src/ECS/EntityComponentStore.cpp:576-592 | One partial move is that map update, with rows and table in agreement again. |
| EntityMoves.PrefixStays | src/ECS/EntityComponentStore.cpp:576-617 | Taking from the end of a batch leaves the entities of its first rows where they are. |
| EntityMoves.PartAgrees | src/ECS/Archetype.cpp:205-219 | Rows claimed for more handles than there were: rows and table agree but for the rows without a handle, and exactly the handles are new. |
| EntityMoves.AllocateCreates | src/ECS/Archetype.cpp:205-219 | Each new handle has the archetype's types, its own handle as Entity, what a constructor leaves for managed types, zero for the others, and the chunk's shared values. |
| ChunkColumns.MergedColumns | src/ECS/Archetype.cpp:490-541 | The merge over both type lists converts every destination column and lists exactly the types only the source has. |
| ChunkColumns.ConvertMeans | src/ECS/Archetype.cpp:490-541 | So convert makes the destination rows the converted source rows. |
| ChunkColumns.Convert | src/ECS/Archetype.cpp:490-541 | The loop equals that merge. |
| ChunkColumns.Copy | src/ECS/Archetype.cpp:276-298 | copy moves whole rows: every column. |
| ChunkColumns.DestroySourceOnly | src/ECS/Archetype.cpp:542-565 | One destructor call for each moved row and each type of the source's managed run that the destination has no column for, and no others. |
| ChunkColumns.DestroyManaged | src/ECS/EntityComponentStore.cpp:376-393 | One destructor call for each row and each type of the managed run. |
| ChunkColumns.InitializeComponents | src/ECS/Archetype.cpp:174-196 | Columns of types with the managed bit are constructed, the others cleared, and the handles stay. |
| EntityCounts.ArchetypeCount | src/ECS/EntityComponentStore.cpp:271-278 | Counting archetype by archetype counts each handle once. |
| EntityCounts.CountsAddUp | src/ECS/EntityComponentStore.cpp:271-278 | The archetypes' entity counts add up to the number of live entities. |
| SharedIndices.BuildWithAddedComponents | src/ECS/EntityComponentStore.cpp:683-708 | Each shared type the source has keeps its value, and the others get their default. |
| SharedIndices.BuildWithAddedComponent | src/ECS/EntityComponentStore.cpp:709-738 | The loop leaves the old values before the new one, the new one, one word unwritten, and then the old values; without a new shared type it copies. |
| SharedIndices.AddedRight | src/ECS/EntityComponentStore.cpp:709-738 | These are the right values iff the new type comes last or the unwritten word holds the value by chance. |
| SharedIndices.BuildWithRemovedComponent | src/ECS/EntityComponentStore.cpp:774-801 | The loop leaves the old values without the removed one, but the last word unwritten; without a removed shared type it copies. |
| SharedIndices.RemovedRight | src/ECS/EntityComponentStore.cpp:774-801 | These are the right values iff the removed type is the last or the unwritten word holds the value by chance. |
| SharedIndices.MiddleValueLost | src/ECS/EntityComponentStore.cpp:709-801 | Adding a shared type between two, or removing the middle one of three, loses the value of the upper one. |
| EntityComponentStore.Store.CreateEntities | src/ECS/EntityComponentStore.cpp:279-288 | n new entities, each with its handle, constructed managed types and zero for the others, in as many chunks as it takes, iff n is 0 or an entity fits a chunk and the entity table has room for them; else every handle there was has been handed out, and rows and table agree but for the rows claimed in vain. Either way all other entities stay as they are, and no handle was issued before. |
| EntityComponentStore.Store.Allocate | src/ECS/Archetype.cpp:205-219 | One chunk's part of it, with the table entries that belong to the rows, and the same when it fails. |
| EntityComponentStore.Store.GetChunkWithEmptySlots | src/ECS/EntityComponentStore.cpp:219-236 | A chunk with these shared values and room, a tracked one, or a new one if all chunks with these values are full; no entity changes. |
| EntityComponentStore.Store.GetFirstEntityBatchInChunk | src/ECS/EntityComponentStore.cpp:289-318 | Found iff the first listed entity exists; then the rows of the batch hold exactly the next listed handles, and the run is the longest. |
| EntityComponentStore.Store.ExistsExactly | src/ECS/EntityStore.cpp:37-49 | The existence test accepts exactly the live handles and the forged ones: a current even version with a place still recorded. |
| EntityComponentStore.Store.Lookup | src/ECS/EntityComponentStore.cpp:289-318 | Looking up a listed handle fails iff it is forged; else it gives the entity's place, or none if it does not exist. |
| EntityComponentStore.Store.DestroyEntities | src/ECS/EntityComponentStore.cpp:319-331 | Terminates for any list, in any order, with repeated, stale and null handles; the listed entities are gone, all others keep types and values, and each entity that went had one destructor call for each type of its managed run. |
| EntityComponentStore.BatchDestroyed | src/ECS/EntityComponentStore.cpp:319-331 | Destroying the next batch, although it moves rows of entities still listed, extends "the entities listed so far are gone" by that batch. |
| EntityComponentStore.Store.Deallocate | src/ECS/Archetype.cpp:226-242 | The entities of the batch are gone and no others, with their destructor calls. |
| EntityComponentStore.Store.DeallocateDataEntitiesInChunk | src/ECS/EntityComponentStore.cpp:344-375 | Destructors, freed handles and fill-from-tail together. |
| EntityComponentStore.Store.Clone | src/ECS/Archetype.cpp:463-489 | The method equals the transition the clone lemmas speak about, and makes one destructor call for each moved row and type of the managed run left behind. |
| EntityComponentStore.Store.Remove | src/ECS/Archetype.cpp:243-275 | The method equals closing the hole. |
| EntityComponentStore.Store.MoveSome | src/ECS/EntityComponentStore.cpp:576-592 | Moves as much of the end of a batch as the destination has room for. |
| EntityComponentStore.Store.Move | src/ECS/EntityComponentStore.cpp:609-617 | Terminates; every entity of the batch ends in the destination archetype with common values kept and added ones zero, all other entities are untouched, none is lost, and each type of the managed run left behind has one destructor call for each moved entity. |
| EntityComponentStore.MovingStep | src/ECS/EntityComponentStore.cpp:609-617 | A partial move extends "the end of the batch has moved" by what it moved, and the rest of the batch is still in its rows. |
| EntityComponentStore.Store.GetOrCreateArchetype | src/ECS/EntityComponentStore.cpp:157-162 | Creating an archetype changes no entity. |
| EntityComponentStore.Store.RowOfSlot | src/ECS/EntityStore.cpp:66-73 | The row found by slot is the row of whoever occupies the slot. |
| EntityComponentStore.Store.OccupantIsLive | src/ECS/EntityStore.cpp:66-73 | The occupant of an allocated slot is live, and is the handle's own entity iff the handle is live. |
| EntityComponentStore.Store.AddComponent | src/ECS/EntityComponentStore.cpp:618-649 | Adds one type to the occupant of the handle's slot, iff absent, with its values kept, a new value zero, no destructor run and others untouched; its shared values are kept if the type is not shared, else they become what the loop leaves; succeeds iff the slot is allocated and the longer list is legal and fits a chunk, or the type is there already; the occupant is the handle's own iff that is live. |
| EntityComponentStore.Store.RemoveComponent | src/ECS/EntityComponentStore.cpp:629-660 | Removes one type, iff present, with one destructor call if it is in the managed run; Entity itself cannot be removed; shared values, success and occupant as before. |
| EntityComponentStore.AddedKept | src/ECS/EntityComponentStore.cpp:709-738 | An entity that gains a shared type keeps all its shared values iff the type is above all it has, or a word of the stack holds the lost one by chance. |
| EntityComponentStore.RemovedKept | src/ECS/EntityComponentStore.cpp:774-801 | An entity that loses a shared type keeps all other shared values iff the type was above all it had, or the same chance. |
| EntityComponentStore.Store.RemoveComponents | src/ECS/EntityComponentStore.cpp:551-574 | Changes nothing: succeeds iff none of the types is there, and fails otherwise. |
| EntityComponentStore.Store.AddComponents | src/ECS/EntityComponentStore.cpp:625-672 | Adds several types at once, shared ones included: values and shared values are kept, new shared values are their defaults; success and occupant as before. |
| EntityComponentStore.RoomForList | src/ECS/EntityComponentStore.cpp:38-47 | The condition on the resulting set of types is one on its only sorted list. |
| EntityComponentStore.AddThenRemoveEntity | src/ECS/EntityComponentStore.cpp:618-661 | Adding an absent component and removing it again restores the whole map of entities, whatever became of the rows. |
| EntityComponentStore.Store.CountEntities | src/ECS/EntityComponentStore.cpp:271-278 | Gives the number of live entities. |
| QueryMatching.TestRequired | src/ECS/EntityQueryManager.cpp:7-26 | The merge scan is true iff the required types are among the archetype's. |
| QueryMatching.FirstCommon | src/ECS/EntityQueryManager.cpp:27-66 | The scan shared by the other two finds a common type iff there is one. |
| QueryMatching.TestOptional | src/ECS/EntityQueryManager.cpp:27-46 | True iff the optional types are none or meet the archetype's. |
| QueryMatching.TestExcluded | src/ECS/EntityQueryManager.cpp:47-66 | True iff the excluded types are disjoint from the archetype's. |
| ChangedList.TrackKeeps | src/ECS/ChunkListChanges.cpp:6-13 | Tracking keeps the list null-ended or ending in one cycle, and adds exactly the archetype to those tracked. |
| ChangedList.TrackCloses | src/ECS/ChunkListChanges.cpp:6-13 | Tracking closes the list into a cycle iff it was closed or tracks, again, the one archetype in it whose link is null. |
| ChangedList.CycleArises | src/ECS/ChunkListChanges.cpp:6-13 | Tracking two archetypes and then the first again closes the list into a cycle. |
| ChangedList.WalkStep | src/ECS/EntityQueryManager.cpp:181-194 | While links are cleared behind it, the walk reads each link as it was before. |
| ChangedList.WalkEnd | src/ECS/EntityQueryManager.cpp:181-194 | After as many turns as there are tracked archetypes all links are null, and a walk that came back into the cycle meets a cleared link. |
| Queries.Manager.TrackArchetype | src/ECS/ChunkListChanges.cpp:6-13 | The method keeps that shape. |
| Queries.Manager.CleanChangeList | src/ECS/EntityQueryManager.cpp:181-194 | Terminates in every shape, visits every tracked archetype, invalidates all its queries, clears every link; each cache still marked valid holds exactly the chunks of its query's archetypes, each as often as it is listed. |
| Queries.Manager.AddArchetypeIfMatching | src/ECS/EntityQueryManager.cpp:67-112 | The query lists the archetype iff All is a subset of its types, Any is empty or meets them, and None is disjoint from them; a pair already registered is left alone. |
| Queries.Manager.UpdateNewArchetypes | src/ECS/EntityQueryManager.cpp:195-214 | Afterwards each query lists each archetype that has all of All, one of Any if there are any, and none of None exactly once, and no other. |
| Queries.Manager.CreateEntityQuery | src/ECS/EntityQueryManager.cpp:132-180 | The new query has the types sorted and lists exactly the matching archetypes there are; the older queries stay as they are. |
| Queries.Manager.ChangeChunkList | src/ECS/Archetype.cpp:29-45 | A changed chunk list is tracked, so no valid cache goes stale unnoticed. |
| Queries.Manager.ChangeEntityCount | src/ECS/Archetype.cpp:197-203 | Entities that come and go within the chunks there are change no cache, although nothing is tracked. |
| Queries.Manager.RebuildMatchingChunkCache | src/ECS/EntityQueryManager.cpp:225-255 | The cache holds each chunk of the query's archetypes as often as the archetype lists it, and nothing else. |
| Queries.Manager.GetData | src/ECS/EntityQueryManager.cpp:215-224 | Once the changes are drained, the cache holds each chunk of the query's archetypes as often as its archetype lists it, and nothing else; once new archetypes are registered, these are exactly the matching ones, each once. |
| Queries.RebuiltLists | src/ECS/EntityQueryManager.cpp:225-255 | A rebuilt cache has an entry for a chunk as often as the archetype at that place lists the chunk. |
| Queries.CachedOnce | src/ECS/EntityQueryManager.cpp:225-255 | Where no chunk is listed twice, each chunk is in the cache once. |
| RedBlack.RbTree.Rotate | external/uv/tree.h:342-380 | A rotation, in memory, is the turn of the tree, keeping search order and parent links. |
| RedBlack.RbTree.InsertColor | external/uv/tree.h:407-449 | The fix-up ends, restores the colours and the black heights, and keeps the nodes. |
| RedBlack.RbTree.Insert | external/uv/tree.h:598-626 | An element with an equal key is returned and nothing changes; else no key was equal, the element joins, and the tree is a red-black tree in search order with parent links. |
| RedBlack.RbTree.RemoveColor | external/uv/tree.h:451-528 | The fix-up for a missing black node ends, restores the black heights, and keeps the nodes. |
| RedBlack.RbTree.Remove | external/uv/tree.h:530-595 | Exactly the element leaves, and the tree is again a red-black tree in search order with parent links. |
| RedBlack.RbTree.RemoveInner | external/uv/tree.h:539-577 | An element with two children is replaced by its successor, which takes over its links and colour. |
| RedBlack.FlipKeeps | external/uv/tree.h:416-421 | A red uncle: the fault moves up two levels and nothing else is wrong. |
| RedBlack.TurnKeeps | external/uv/tree.h:422-427 | Child and parent on different sides: the first rotation keeps the fault where it is. |
| RedBlack.LiftKeeps | external/uv/tree.h:428-429 | Child and parent on the same side: the rotation removes the fault. |
| RedBlack.RedSiblingKeeps | external/uv/tree.h:460-464 | A red sibling: after the turn the same black node is missing, below a red parent. |
| RedBlack.PaintKeeps | external/uv/tree.h:465-471 | Two black nephews: the missing black node moves up one level. |
| RedBlack.NephewKeeps | external/uv/tree.h:473-482 | A red near nephew: after the turn the far nephew is red. |
| RedBlack.SettleKeeps | external/uv/tree.h:483-489 | A red far nephew: after the last turn no black node is missing. |
| TreeRemoval.Detach | external/uv/tree.h:579-590 | A node with at most one child is taken out; the tree in memory is as before but for it. |
| TreeRemoval.Replace | external/uv/tree.h:559-570 | A node outside the tree takes another's place if its key fits between the neighbours. |
| TreeSteps.RotateWhole | external/uv/tree.h:342-380 | A rotation seen from above: the path over it is untouched but for one link. |
| TreeMeaning.KeysRise | external/uv/tree.h:598-626 | Read in order, the keys of a valid tree rise strictly, and every node is read. |
| TreeMeaning.ParentLinks | external/uv/tree.h:327-340 | A child's parent pointer leads back to the node, for every node of the tree in memory. |
| TreeMeaning.BlackChildren | external/uv/tree.h:407-449 | No red node in memory points to a red child. |
| TreeMeaning.SameBlackHeight | external/uv/tree.h:407-449 | Every way down the pointers to a null meets the same number of black nodes. |
| TreeMeaning.Balanced | external/uv/tree.h:407-528 | So no way down from the root is more than twice as long as another. |

## Left out

- ChunkListMap.Add: requires that the chunk is no member; the source's check for a duplicate stops at the first reusable slot and so does not find every one (`Probing.FindFree` says which it finds).
- ArchetypeListMap.Map.Add: the same restriction.
- ChunkData.ArchetypeChunkData.Grow: models copying `count` chunk pointers where the source copies `count` times four bytes (src/ECS/ArchetypeChunkData.cpp:117-120).
- EntityComponentStore.Store.AddComponents: requires sorted types.
- EntityComponentStore.Store.RemoveComponents: requires that Entity is not among the types.
- Queries.Manager.CreateEntityQuery: requires at least one All type and no type twice among All, Any or None; the source throws for a repeated type after it has listed the query, and reads before its array without an All type (src/ECS/EntityQueryManager.cpp:153-160).
- EntityComponentStore.Store.CreateEntities: of the handles handed out before a failure it says that they are live and whose rows they have, not that their components are initialized.
- EntityComponentStore.Store.DestroyEntities: requires handles that are null or have an odd version, as every issued handle has; forged handles and setEntityVersion are out.
- EntityStore.Store.DeallocateEntities: requires odd versions, because freeing under a current even one breaks the block (`EntityBlocks.FreeSlot`).
- EntityStore.Store.FreeRange: the same restriction.
- SharedReferences.Ledger.Intern: one ledger follows the references of one shared type, in the loops over all shared values of a chunk; the reference table keeps no record of the others.
- EntityComponentStore.Store.Move: requires that the destination differs from the source in archetype or shared values, as the source's callers ensure.
- BlockProtocol.ProtocolSafe: compare-exchange is strong; spurious failures of the weak form are out, and a thread that gives up because the table is full stops there.
- getIndexInTypeArray, getNextIndexInTypeArray and what rests on them: typed accessors and the queries' type indexes.
- changeArchetypeInPlace and the whole-chunk branch of moveAndSetChangeVersion.
- validateEntities and its callers.
- Change versions, order versions and enabled bits, beyond the version column of ChunkData.
- 32-bit wrap-around of versions, counts and sizes.
- The memory layout of the intern table, and checkInternalConsistency; there is one modelled table for each shared type.
- The hash map of an archetype is a value that the tracking replaces where the source updates it in place, so aliasing of maps is not modelled.
- The parts that mirror each other across modules are proved apart: the store keeps shared values as numbers, and SharedReferences counts them beside the same tracking but not inside the store; the chunk lists of ChunkTracking are lists of rows, whose column buffers are ChunkData; Queries has its own view of the archetypes, and ChangeChunkList and ChangeEntityCount stand for what the store tells it.
- Where the store takes chunk capacities from is the function `capacityOf`; that the layout computes the largest is what Layout proves. For an archetype whose single entity exceeds the buffer the capacity is 0: creating or moving an entity there fails in the model before any chunk or entity changes, where the source first lists an empty chunk and then throws.
- Component bytes are abstract values; a type without size has no cells; an added managed type is cleared by a move as in the source, not constructed.
- Mirror-image branches of the red-black tree are one branch with a side; the splay half, lookups and iteration macros of the file are out.
- The allocation of chunks (src/ECS/ChunkStore.cpp), src/ECS/ResourceManager.cpp, src/ECS/AssetsManager.cpp and external/cutil/set.hpp.
- The index array and the fence array of src/ECS/ComponentDependencyManager.cpp are one map from the type's index; its simpler variant, which is not compiled by default, is out. Calls of `JobsUtility::schedule` by systems while no schedule is built are out.
- The window system, the graphics library, the event library, timers, and exceptions inside user systems.
