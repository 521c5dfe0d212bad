# Verified models of Dawn's front end

Dafny models of the stateful algorithms in the front end of Dawn (an implementation of WebGPU), with
proofs of what they keep over whole runs. `dafny verify dfyconfig.toml` checks the project.

| files | what they model |
|---|---|
| PowersOfTwo, BuddyBlocks, BuddyAllocator, BuddyMemoryAllocator | the buddy allocator: a block tree under one linked free list per level, and the reference-counted heaps on top |
| SlabLists, SlabAllocator, PointerLists | the slab allocator: three linked lists of slabs, index chains inside them, owners found by address arithmetic |
| CommandAllocator, Encoding, PassCommands, StateTracker, UsageTracker | the command stream: writing and reading records, who may write, and the validation that consumes the stream |
| SerialStorage, Callbacks, References, FenceTimeline, BufferMapping, ErrorScopes | the serial timeline: serial-keyed containers, fences, buffer mapping and error scopes |
| BindGroupLayouts, LayoutCaches | packing bind group layouts and the content caches |
| StructureOrder | the ordering of structures in the code generator |
| Wrappers | an option type and facts about sets |

How things are represented:

- A pointer is a key of an explicit store (a map held by the class that owns the objects). `new` adds a key
  that is not in use and `delete` removes one, so a dangling pointer is a missing key. Reference counts are
  numbers, and the invariants say what they count.
- Addresses are natural numbers. What `malloc` and `new char[]` return, what back ends and descriptor checks
  answer and how far the GPU has come are parameters.
- A staging buffer exists only for a buffer that is mapped at creation and not writable directly
  (src/dawn_native/Buffer.cpp:171-181). Every back end can write directly to a buffer with a map usage, so
  BufferMapping takes staging buffers to go with buffers that have none.
- Calls into the application are entries of a ghost log; the application does not call back from them.
- In FenceTimeline, BufferMapping and ErrorScopes a SerialQueue or SerialMap is the log of what is enqueued in
  it. SerialStorage proves that the containers iterate and clear exactly as that log says.
- Every class has an invariant that its constructor establishes and its operations keep, so what is proved under
  that invariant holds in every reachable state. (AcquireBlocks ends the life of a command allocator.)

Where a promise does not hold, the model follows the code and states the exact condition:

- The buddy allocator looks at the first free block of each level only. With an alignment above the size it can
  miss room (`MisalignedHeadHidesRoom`). `Allocate` fails exactly when no list head fits, which for an alignment
  of at most the size is exactly when there is no room; `MissedExactly` says for any alignment when room is missed.
- `BuddyMemoryAllocator::Allocate` keeps the buddy block when the heap for it cannot be created
  (`FailedHeapLosesBlock`). Its result is HeapError exactly in that case, and no other block is ever lost: the
  live blocks are those handed out and those lost this way.
- `ValidateOperation` caches the match of bind groups and pipeline layout, so a group rebound with another layout
  after an accepted operation goes unnoticed (`StaleGroupsAccepted`); `AcceptedExactly` is the exact condition.
- Map serials wrap at 2^32 (`WrapAroundConfuses`); `MistakenExactly` says which serials are confused. A buffer that
  wraps around takes nothing from what is proved of the others.
- The comment at src/dawn_native/BindGroupLayout.cpp:221-223 says that dynamic bindings are in increasing order of
  binding number. The type is compared first, so that is false in general (`DynamicNotByNumber`);
  `DynamicByNumberExactly` says when it is true.
- The destructors of fences and buffers call back what still waits; without re-entrant callbacks nothing ever
  does (the two `NothingWaits`).

## Model

| member | source | states |
|---|---|---|
| `PowersOfTwo.Log2` | src/common/Math.cpp:52-72 | the position of the highest bit: 2^k is at most n and n is below 2^(k+1) |
| `PowersOfTwo.NextPowerOfTwo` | src/common/Math.cpp:74-80 | the least power of two that is not below n |
| `PowersOfTwo.Align` | src/common/Math.cpp:101-107 | the least multiple of the alignment that is not below the value |
| `PowersOfTwo.Nested` | src/dawn_native/BuddyAllocator.cpp:139-250 | two size-aligned power-of-two intervals are disjoint or one lies in the other |
| `BuddyBlocks.LeavesTile` | src/dawn_native/BuddyAllocator.cpp:139-250 | every point of [0, maxSize) lies in exactly one leaf of the block tree |
| `BuddyBlocks.UniqueBlock` | src/dawn_native/BuddyAllocator.cpp:202-220 | offset and size identify a block of the tree, so the descent by offset cannot go wrong |
| `BuddyBlocks.LiveDisjoint` | src/dawn_native/BuddyAllocator.cpp:139-200 | live allocations are in range, aligned to their size and pairwise disjoint |
| `BuddyBlocks.RoomIffFreeBlock` | src/dawn_native/BuddyAllocator.cpp:59-92 | with eager merging, a size-aligned interval clear of live allocations exists exactly when a free block of at least that size does |
| `BuddyBlocks.DeterminedByLive` | src/dawn_native/BuddyAllocator.cpp:139-250 | two trees with the same live (offset, size) pairs have the same blocks in the same states |
| `BuddyBlocks.EmptyIsRoot` | src/dawn_native/BuddyAllocator.cpp:230-250 | with nothing live only the free root block is left |
| `BuddyBlocks.SplitOk` | src/dawn_native/BuddyAllocator.cpp:161-193 | splitting a free leaf keeps a full binary tree, changes no live allocation and leaves at most the new pair unmerged |
| `BuddyBlocks.MergeOk` | src/dawn_native/BuddyAllocator.cpp:230-247 | merging two free buddies keeps a full binary tree and every live allocation |
| `BuddyAllocation.BuddyAllocator.constructor` | src/dawn_native/BuddyAllocator.cpp:22-30 | one free root block, listed at level 0 |
| `BuddyAllocation.BuddyAllocator.InsertFreeBlock` | src/dawn_native/BuddyAllocator.cpp:98-114 | the block is put in front of the list of its level; the other lists and all blocks keep their contents |
| `BuddyAllocation.BuddyAllocator.RemoveFreeBlock` | src/dawn_native/BuddyAllocator.cpp:116-137 | the block leaves its list wherever it stands, although the pPrev of a head may be stale |
| `BuddyAllocation.BuddyAllocator.GetNextFreeAlignedBlock` | src/dawn_native/BuddyAllocator.cpp:59-92 | the level nearest to the requested one, towards the root, whose first free block is aligned; fails exactly when no first block in reach is |
| `BuddyAllocation.ChoiceIsNearest` | src/dawn_native/BuddyAllocator.cpp:84-90 | the offset chosen is that of the first block of the nearest level with an aligned one |
| `BuddyAllocation.BuddyAllocator.NearestIsSmallest` | src/dawn_native/BuddyAllocator.cpp:71-92 | for an alignment of at most the size, the block found there is a smallest free block of at least the size |
| `BuddyAllocation.BuddyAllocator.SplitBlock` | src/dawn_native/BuddyAllocator.cpp:161-193 | one turn of the split loop keeps tree, lists and live set, the left half being the new head |
| `BuddyAllocation.BuddyAllocator.MergeBlock` | src/dawn_native/BuddyAllocator.cpp:230-247 | one turn of the merge loop replaces two free buddies by their free parent |
| `BuddyAllocation.BuddyAllocator.SearchDecides` | src/dawn_native/BuddyAllocator.cpp:59-92 | for an alignment of at most the size, the search fails exactly when no size-aligned interval is clear |
| `BuddyAllocation.BuddyAllocator.Allocate` | src/dawn_native/BuddyAllocator.cpp:139-200 | keeps the whole invariant; a result is aligned, was clear, is now live and starts at the first block of the nearest level with an aligned one, which for alignment at most the size is a smallest free block that is large enough; the free lists change as the splits change them; a failure changes nothing; for power-of-two sizes and alignment at most the size it fails exactly when there is no room, and in general exactly when no list head fits |
| `BuddyAllocation.BuddyAllocator.FindAllocation` | src/dawn_native/BuddyAllocator.cpp:202-221 | the descent by offset reaches the allocation that starts there |
| `BuddyAllocation.BuddyAllocator.Deallocate` | src/dawn_native/BuddyAllocator.cpp:202-250 | keeps the whole invariant and removes exactly the allocation at the offset; the block it is merged into comes first in its list, and the other lists lose at most a merged buddy |
| `BuddyAllocation.AllocateThenDeallocate` | src/dawn_native/BuddyAllocator.cpp:139-250 | giving back what was just taken restores every block and its state |
| `BuddyAllocation.FreeEverything` | src/dawn_native/BuddyAllocator.cpp:202-250 | freeing all allocations in any order leaves the single free root block |
| `BuddyAllocation.BuddyAllocator.MergeUp` | src/dawn_native/BuddyAllocator.cpp:229-250 | merging ends with the whole invariant, the block that covers the freed one being the first of its level |
| `BuddyAllocation.BuddyAllocator.MissedExactly` | src/dawn_native/BuddyAllocator.cpp:84-90 | for any alignment, aligned room is missed exactly when no list head in reach is aligned but some free block behind one is; all free blocks in reach are then smaller than the alignment |
| `BuddyBlocks.AlignedRoomExactly` | src/dawn_native/BuddyAllocator.cpp:84-90 | for any alignment, aligned room exists exactly when a large enough free block starts aligned |
| `BuddyAllocation.MisalignedHeadHidesRoom` | src/dawn_native/BuddyAllocator.cpp:84-90 | a run: after four allocations and two releases, a request for one unit with alignment 2 fails although unit 2 is free |
| `BuddyAllocation.BlockSize` | src/dawn_native/BuddyAllocator.cpp:52-57 | a request is served by the largest power of two not above it, which is the request only for powers of two |
| `BuddyMemory.BuddyMemoryAllocator.constructor` | src/dawn_native/BuddyMemoryAllocator.cpp:22-33 | no heap exists, nothing is handed out and nothing is lost |
| `BuddyMemory.BuddyMemoryAllocator.Allocate` | src/dawn_native/BuddyMemoryAllocator.cpp:40-81 | each heap has as many references as handed-out allocations in it and exists exactly when there is one; every live block is either handed out or lost; the block is a smallest free one that is large enough if the alignment is at most the size; the result is HeapError exactly when the block that the search chooses needs a heap and there is none, and then exactly that block is lost |
| `BuddyMemory.BuddyMemoryAllocator.Deallocate` | src/dawn_native/BuddyMemoryAllocator.cpp:83-99 | the same counts are kept and nothing more is lost; the heap goes with its last allocation and stays the same heap until then |
| `BuddyMemory.FailedHeapLosesBlock` | src/dawn_native/BuddyMemoryAllocator.cpp:62-68 | a run: one failed heap, and the only block is gone although nothing was handed out |
| `BuddyMemory.BuddyMemoryAllocator.HandedOutLayout` | src/dawn_native/BuddyMemoryAllocator.cpp:40-81 | handed-out allocations are in bounds, aligned, in one heap each, and disjoint inside it |
| `BuddyMemory.NeverStraddles` | src/dawn_native/BuddyMemoryAllocator.cpp:35-38 | a power-of-two block no larger than a heap lies in one heap |
| `BuddyMemory.DisjointInHeap` | src/dawn_native/BuddyMemoryAllocator.cpp:74-80 | offsets inside a shared heap do not overlap |
| `BuddyMemory.IndexIsQuotient` | src/dawn_native/BuddyMemoryAllocator.cpp:35-38 | the memory index is the quotient of offset and heap size |
| `SlabLists.SpliceOk` | src/common/SlabAllocator.cpp:159-175 | taking a slab out of its list leaves the others in order |
| `SlabLists.PrependOk` | src/common/SlabAllocator.cpp:150-157 | a slab put in front of a list |
| `SlabLists.SwapOk` | src/common/SlabAllocator.cpp:219-233 | swapping the sentinels moves the whole recycled list to the available one |
| `SlabAllocation.MakeLayout` | src/common/SlabAllocator.cpp:63-78 | the sizes and counts are the arguments; each offset and stride is the least multiple of its alignment with enough room, and the allocation alignment is the larger of the two |
| `SlabAllocation.ObjectsFromArguments` | src/common/SlabAllocator.cpp:63-78 | for any arguments of the constructor: objects are aligned, lie behind the header and before their own nodes, no object meets another object or node, and the allocation has room for the padding |
| `SlabAllocation.NodesAligned` | src/common/SlabAllocator.cpp:63-78 | the nodes are aligned too, whatever the alignment of the objects |
| `SlabAllocation.OffsetFromMoves` | src/common/SlabAllocator.cpp:94-99 | OffsetFrom reaches the node of another slot when the distance fits a signed 16-bit number |
| `SlabAllocation.DistancesFit` | src/common/SlabAllocator.cpp:94-99 | every distance between slots survives the conversion exactly when there are at most 32768 slots |
| `SlabAllocation.OwnerRecovered` | src/common/SlabAllocator.cpp:195-201 | the address of a live object and the index beside it lead back to the slab that issued it |
| `SlabAllocation.ObjectsAligned` | src/common/SlabAllocator.cpp:63-78 | objects in an aligned slab are aligned |
| `SlabAllocation.ObjectsDisjoint` | src/common/SlabAllocator.cpp:63-115 | two objects never overlap |
| `SlabAllocation.PushOk` | src/common/SlabAllocator.cpp:117-131 | the index chain stays acyclic and lists exactly the unused blocks |
| `SlabAllocation.PopOk` | src/common/SlabAllocator.cpp:133-148 | the same when the first block is taken |
| `SlabAllocation.UsedBound` | src/common/SlabAllocator.cpp:177-193 | no more blocks are in use than there are slots, and as many when every chain is empty |
| `SlabAllocation.CeilIsQuotient` | src/common/SlabAllocator.cpp:219-249 | the bound kept on the number of slabs is the rounded-up quotient of peak live objects and blocks per slab |
| `SlabAllocation.AllocateFacts` | src/common/SlabAllocator.cpp:177-193 | a slab is created only when all are full, so the number of slabs stays that quotient |
| `SlabAllocation.SlabAllocator.constructor` | src/common/SlabAllocator.cpp:63-78 | three empty lists |
| `SlabAllocation.SlabAllocator.Allocate` | src/common/SlabAllocator.cpp:177-193 | hands out the first unused block of the first available slab, else of the first recycled one, else of a new one; a slab that fills up moves to the front of the full ones; keeps: each slab in exactly one list, in the full list exactly when all its blocks are used, slabs created = ceil(peak / blocksPerSlab) |
| `SlabAllocation.SlabAllocator.GetNewSlab` | src/common/SlabAllocator.cpp:219-249 | makes a slab available, a recycled one if there is any |
| `SlabAllocation.SlabAllocator.PopFront` | src/common/SlabAllocator.cpp:133-148 | takes the first free block of a slab and counts it |
| `SlabAllocation.SlabAllocator.PushFront` | src/common/SlabAllocator.cpp:117-131 | gives a block back to the front of its chain |
| `SlabAllocation.SlabAllocator.Deallocate` | src/common/SlabAllocator.cpp:195-217 | returns exactly that block to the front of its slab; a slab that was full moves to the front of the recycled ones and no other slab moves |
| `SlabAllocation.SlabAllocator.FindOwner` | src/common/SlabAllocator.cpp:195-201 | the address arithmetic gives the owning slab and node |
| `SlabAllocation.SlabAllocator.LiveObjects` | src/common/SlabAllocator.cpp:101-115 | live objects are aligned, inside their slab and do not overlap |
| `CommandStream.AlignPtrIsAligned` | src/common/Math.h:41-46 | AlignPtr gives the next multiple of the alignment, and so agrees with Align |
| `CommandStream.RegionsApart` | src/dawn_native/CommandAllocator.h:202-224 | payloads, ids and the end tag of a block follow each other without overlap |
| `CommandStream.RegionInBlock` | src/dawn_native/CommandAllocator.h:197-200 | every record lies inside its block, before its last cell |
| `CommandStream.NextAllocationSize` | src/dawn_native/CommandAllocator.cpp:161-167 | the next block is double the last up to 16 KiB, or what is asked for if that is more |
| `CommandStream.CommandAllocator.constructor` | src/dawn_native/CommandAllocator.cpp:118-121 | an empty stream; the last allocation counts as 2048 bytes |
| `CommandStream.CommandAllocator.Allocate` | src/dawn_native/CommandAllocator.h:190-226 | appends exactly this record at the returned, aligned address; returns null exactly when the command and 20 bytes more do not fit and either the size wraps around or malloc fails |
| `CommandStream.CommandAllocator.AllocateInNewBlock` | src/dawn_native/CommandAllocator.cpp:138-159 | the same after closing the block; the mutual recursion ends after one new block |
| `CommandStream.CommandAllocator.GetNewBlock` | src/dawn_native/CommandAllocator.cpp:161-175 | adds a block of exactly the next allocation size, large enough for the request |
| `CommandStream.CommandAllocator.AcquireBlocks` | src/dawn_native/CommandAllocator.cpp:127-136 | every block is closed by an end tag and reading them yields everything that was allocated |
| `CommandStream.CommandIterator.constructor` | src/dawn_native/CommandAllocator.cpp:63-66 | starts before the first record, with a stand-in block for an empty stream |
| `CommandStream.CommandIterator.NextCommandId` | src/dawn_native/CommandAllocator.h:102-115 | yields the id of the next record, or ends and resets exactly when all has been read |
| `CommandStream.CommandIterator.NextCommandIdInNewBlock` | src/dawn_native/CommandAllocator.cpp:74-83 | the same across the end of a block |
| `CommandStream.CommandIterator.NextCommand` | src/dawn_native/CommandAllocator.h:119-127 | yields the address that the record was written at |
| `CommandStream.CommandIterator.ReadAll` | src/dawn_native/CommandAllocator.h:38-54 | iterating yields every record with its id and address in order and is then back at the start |
| `CommandStream.ReadTwice` | src/dawn_native/CommandAllocator.cpp:85-98 | a second iteration yields the same |
| `CommandStream.StreamApart` | src/dawn_native/CommandAllocator.h:202-224 | in one block or in two, no record overlaps another or an end tag |
| `CommandStream.WriteAndRead` | src/dawn_native/CommandAllocator.h:190-226 | for every sequence of requests and answers of malloc, iterating twice yields each request that got an address, with its id and that address, in order |
| `Encoding.EncodingContext.HandleError` | src/dawn_native/EncodingContext.cpp:56-67 | errors are kept until Finish and go to the device afterwards |
| `Encoding.EncodingContext.TryEncode` | src/dawn_native/EncodingContext.h:56-71 | only the current encoder writes, and without an error the stream follows the grammar |
| `Encoding.EncodingContext.BeginPass` | src/dawn_native/CommandEncoder.cpp:563-681 | opens a pass exactly when called at the top level with a valid descriptor; else an error is recorded |
| `Encoding.EncodingContext.EndPass` | src/dawn_native/ComputePassEncoder.cpp:46-54 | records the end and one usage record exactly when its encoder is current; else an error is recorded |
| `Encoding.EncodingContext.Record` | src/dawn_native/ComputePassEncoder.cpp:56-66 | any other command is recorded exactly when its encoder is current and it is valid, and keeps the grammar; else an error is recorded |
| `Encoding.EncodingContext.ExitPass` | src/dawn_native/EncodingContext.cpp:77-85 | the top level becomes current again and the usage record is added |
| `Encoding.EncodingContext.Finish` | src/dawn_native/EncodingContext.cpp:98-119 | succeeds exactly when not finished, without error and at the top level; then the stream is top-level commands and matching non-nested pairs with one usage record per pair in order |
| `Encoding.ValidateCommand` | src/dawn_native/CommandValidation.cpp:153-214 | one command of a pass is accepted exactly when the kind of pass allows it and it is fine where it stands: a pop has more pushes than pops before it, and a draw, dispatch or trace has what it needs |
| `Encoding.Disallowed` | src/dawn_native/CommandValidation.cpp:153-343 | the default cases refuse exactly what the kind of pass does not record |
| `Encoding.AllOkEach` | src/dawn_native/CommandValidation.cpp:153-343 | a pass is fine up to a position exactly when each of its commands up to there is |
| `Encoding.ValidatePass` | src/dawn_native/CommandValidation.cpp:153-343 | accepts exactly the passes whose every command is fine and which pop as many debug groups as they push; no command is refused as disallowed and the end of the pass is always found, so the UNREACHABLE line is dead |
| `Encoding.ValidateFinish` | src/dawn_native/CommandEncoder.cpp:1007-1110 | accepts exactly when the usages of every pass go together, all passes and top-level commands are fine and as many debug groups are pushed as popped outside of passes; it meets no command out of place |
| `Encoding.FinishEncoder` | src/dawn_native/CommandEncoder.cpp:990-1004 | a command buffer is made exactly from a stream without recorded error, outside of passes, on a live device, that passes validation if that is enabled |
| `Encoding.NeverBroken` | src/dawn_native/EncodingContext.cpp:98-119 | a stream that ends well followed the grammar throughout |
| `Encoding.PassSkipped` | src/dawn_native/CommandEncoder.cpp:1019-1037 | a valid pass leaves the debug groups of the top level as they were |
| `PassCommands.OperateExactly` | src/dawn_native/CommandValidation.cpp:28-146 | the tracker accepts a draw, dispatch or trace exactly when, by positions of the stream since bundles were last executed, there is a current pipeline, its groups are bound or were found bound by an operation since, a draw has the vertex buffers of the pipeline and an indexed draw an index buffer |
| `PassCommands.PipelineMeans` | src/dawn_native/CommandValidation.cpp:81-90 | the tracked pipeline is the one set last and not forgotten |
| `PassCommands.BoundMeans` | src/dawn_native/CommandValidation.cpp:92-101 | a group counts as bound to the layout it was bound with last |
| `PassCommands.GivenMeans` | src/dawn_native/CommandValidation.cpp:102-112 | the index buffer and a vertex buffer slot count as set exactly when a command since bundles were last executed set them |
| `PassCommands.SeenMeans` | src/dawn_native/CommandBufferStateTracker.cpp:89-105 | the groups count as seen exactly when an operation since the pipeline was set found them bound |
| `StateTracking.MeaningOfRun` | src/dawn_native/CommandBufferStateTracker.cpp:71-118 | after any commands the cached fields mean what the history says |
| `StateTracking.VerdictExactly` | src/dawn_native/CommandBufferStateTracker.cpp:71-143 | which verdict an operation gets: a missing index buffer comes first, then the pipeline, vertex buffers and groups |
| `StateTracking.WhatOperationsNeed` | src/dawn_native/CommandBufferStateTracker.cpp:38-54 | what dispatches, traces, draws and indexed draws each need, in terms of the history |
| `StateTracking.AcceptedExactly` | src/dawn_native/CommandBufferStateTracker.cpp:71-118 | an operation is accepted exactly when everything but the groups holds now and the groups match now or were seen to match since the last SetPipeline |
| `StateTracking.DirectIsAccepted` | src/dawn_native/CommandBufferStateTracker.cpp:71-87 | whatever a direct check allows is accepted |
| `StateTracking.AcceptedMeansGroupsMatched` | src/dawn_native/CommandBufferStateTracker.cpp:89-105 | the groups matched at some command since the pipeline was set, and still do if no later command gave one of them another layout |
| `StateTracking.StaleGroupsAccepted` | src/dawn_native/CommandBufferStateTracker.cpp:157-159 | rebinding a group with another layout after an accepted operation goes unnoticed |
| `StateTracking.CommandBufferStateTracker.ValidateOperation` | src/dawn_native/CommandBufferStateTracker.cpp:71-87 | the verdict and the new fields are those of the specification |
| `StateTracking.CommandBufferStateTracker.RecomputeLazyAspects` | src/dawn_native/CommandBufferStateTracker.cpp:89-118 | sets exactly the lazy aspects that hold |
| `StateTracking.CommandBufferStateTracker.SetPipelineCommon` | src/dawn_native/CommandBufferStateTracker.cpp:169-176 | sets the pipeline and drops the lazy aspects |
| `UsageTracking.PassResourceUsageTracker.TextureViewUsedAs` | src/dawn_native/PassResourceUsageTracker.cpp:30-60 | adds the usage to exactly the subresources of the view and to the whole, keeping what was tracked before; the whole stays the union of the parts |
| `UsageTracking.PassResourceUsageTracker.BufferUsedAs` | src/dawn_native/PassResourceUsageTracker.cpp:24-28 | adds the usage to what was tracked for the buffer |
| `UsageTracking.PassResourceUsageTracker.AddTextureUsage` | src/dawn_native/PassResourceUsageTracker.cpp:62-77 | adds another record subresource by subresource and keeps that union |
| `UsageTracking.AcquireResourceUsage` | src/dawn_native/PassResourceUsageTracker.cpp:79-101 | lists exactly the tracked buffers and textures, each once with its usages, and starts afresh |
| `UsageTracking.FastPathAgrees` | src/dawn_native/CommandValidation.cpp:380-397 | a whole-texture usage that is read-only or single makes every subresource so |
| `UsageTracking.CompatibleExactly` | src/dawn_native/Buffer.h:30-32 | the read-only masks and the one-bit test mean a single write or multiple reads: any two different usages both only read |
| `UsageTracking.EachInAll` | src/dawn_native/PassResourceUsageTracker.cpp:30-60 | the union contains every subresource usage |
| `UsageTracking.ValidatePassResourceUsage` | src/dawn_native/CommandValidation.cpp:348-399 | accepts exactly the passes whose every buffer and every subresource is used in an allowed way and, in a render pass, as a single write or by reads alone; the verdict says which kind of resource fails first |
| `UsageTracking.IndexIsInjective` | src/dawn_native/PassResourceUsageTracker.cpp:30-60 | different subresources have different indices |
| `UsageTracking.IndexOrder` | src/dawn_native/Texture.cpp:415-422 | subresources are indexed from 0 without gaps, layer by layer and by mip level inside a layer |
| `SerialStorage.InOrderIsStable` | src/common/SerialStorage.h:101-107 | the reference order is sorted by serial and keeps enqueue order under each serial |
| `SerialStorage.OnlyOneOrder` | src/common/SerialStorage.h:101-107 | and it is the only such order |
| `SerialStorage.OrderThenSelect` | src/common/SerialStorage.h:155-158 | selecting a range of serials commutes with ordering |
| `SerialStorage.FindUpTo` | src/common/SerialStorage.h:172-189 | cuts the storage where the serials pass s: before it lie exactly the values with serial at most s |
| `SerialStorage.Advance` | src/common/SerialStorage.h:216-232 | operator++ passes exactly one value |
| `SerialStorage.Iterate` | src/common/SerialStorage.h:199-252 | a range-based loop visits every value before the end once, in order |
| `SerialStorage.SerialQueue.Enqueue` | src/common/SerialQueue.h:52-60 | appends one value to the log |
| `SerialStorage.SerialQueue.EnqueueAll` | src/common/SerialQueue.h:72-77 | appends a vector of values |
| `SerialStorage.SerialQueue.IterateUpTo` | src/common/SerialStorage.h:134-148 | visits exactly the values with serial at most s, by serial and then enqueue order |
| `SerialStorage.SerialQueue.ClearUpTo` | src/common/SerialStorage.h:155-158 | removes exactly those |
| `SerialStorage.SerialQueue.FirstSerial` | src/common/SerialStorage.h:160-164 | the serial of the first value in order |
| `SerialStorage.SerialQueue.LastSerial` | src/common/SerialStorage.h:166-170 | the serial of the last value |
| `SerialStorage.SerialMap.Enqueue` | src/common/SerialMap.h:49-52 | adds one value, whatever its serial |
| `SerialStorage.SerialMap.EnqueueAll` | src/common/SerialMap.h:59-65 | adds a vector of values |
| `SerialStorage.SerialMap.IterateUpTo` | src/common/SerialStorage.h:134-148 | visits exactly the values with serial at most s, by serial and then enqueue order |
| `SerialStorage.SerialMap.ClearUpTo` | src/common/SerialStorage.h:155-158 | removes exactly those |
| `SerialStorage.SameOnNonDecreasingRuns` | src/common/SerialMap.h:49-73 | on any run of single and vector enqueues and clears with non-decreasing serials and non-empty vectors both containers give the same sequence |
| `FenceTimeline.InFlightValues` | src/dawn_native/FenceSignalTracker.cpp:29-34 | the values in flight of a fence strictly increase, exceed its completed value and end with its signaled value |
| `FenceTimeline.NothingWaits` | src/dawn_native/Fence.cpp:46-52 | a fence without signals in flight has no request left, so its destructor calls nothing back |
| `FenceTimeline.Timeline.CreateFence` | src/dawn_native/Queue.cpp:83-93 | a fence with completed and signaled at the initial value, or an error fence on a lost device |
| `FenceTimeline.Timeline.Signal` | src/dawn_native/Queue.cpp:70-81 | valid exactly for a larger value on a live fence of this queue; then it is in flight at the last submitted serial |
| `FenceTimeline.Timeline.OnCompletion` | src/dawn_native/Fence.cpp:66-85 | calls back at once with DeviceLost, Error or Success as validated, and leaves every fence as it was; or adds one waiting request for a value in (completed, signaled] and changes nothing else |
| `FenceTimeline.Timeline.SetCompletedValue` | src/dawn_native/Fence.cpp:103-117 | the asserts of the source hold; exactly the requests reached are called back, in value order |
| `FenceTimeline.Timeline.Release` | src/dawn_native/Fence.cpp:46-52 | a fence goes exactly with its last reference, silently; others are untouched |
| `FenceTimeline.Timeline.TrackerTick` | src/dawn_native/FenceSignalTracker.cpp:36-41 | applies exactly the signals whose serial has passed, in order; calls back exactly the requests they reach, in the order of those signals, then by value, then as they were made, with Success on a live device and DeviceLost on a lost one; what the application holds stays |
| `FenceTimeline.CallsInOrder` | src/dawn_native/FenceSignalTracker.cpp:36-41 | the calls of a tick are of requests that the signals reach, ordered by the first signal to reach them, then by value, then by age |
| `FenceTimeline.Timeline.Tick` | src/dawn_native/Device.cpp:743-758 | unless the device is lost, advances the completed serial and applies exactly the due signals; every request whose value is reached gets Success, and the fences that stay have the values that the signals gave them |
| `FenceTimeline.Timeline.ReleaseByApplication` | src/dawn_native/Fence.cpp:46-52 | the fence goes exactly when neither the application nor the tracker refers to it; the fences that stay keep their values and requests |
| `FenceTimeline.Timeline.ShutDown` | src/dawn_native/Device.cpp:120-164 | nothing stays in flight, every OnCompletion there ever was has had exactly one callback, and those made now are in order and report DeviceLost on a lost device |
| `FenceTimeline.AnsweredByDestruction` | src/dawn_native/Fence.cpp:46-117 | in any state a request has at most one callback, exactly one once its fence is gone, and Success only if the GPU has passed a signal of at least its value |
| `BufferMapping.MistakenExactly` | src/dawn_native/Buffer.cpp:204-223 | an old map serial equals the current one exactly when their distance is a multiple of 2^32; below 2^32 maps only the current one does |
| `BufferMapping.FiresOnTime` | src/dawn_native/Buffer.cpp:482-489 | before any wrap-around the callback that is found belongs to the request that was tracked |
| `BufferMapping.WrapAroundConfuses` | src/dawn_native/Buffer.cpp:267-268 | a run: 2^32 maps after the first, the stale first request completes the current one with Success before its serial |
| `BufferMapping.NothingWaits` | src/dawn_native/Buffer.cpp:135-141 | a buffer without requests in flight has no callback left, so its destructor calls nothing back |
| `BufferMapping.Timeline.CallMapCallback` | src/dawn_native/Buffer.cpp:204-244 | empties the callback with this serial and calls it once, with DeviceLost on a lost device |
| `BufferMapping.Timeline.MapAsync` | src/dawn_native/Buffer.cpp:257-280 | valid exactly on a live device for an unmapped buffer with the usage; a valid request that the back end accepts maps the buffer, waits and is tracked at the pending serial; any other is called back at once; the buffer counts as wrapped around from its 2^32nd map on |
| `BufferMapping.Timeline.Unmap` | src/dawn_native/Buffer.cpp:353-379 | valid exactly on a live device for a mapped buffer or one with a map usage that is not destroyed; calls a waiting request back with Unknown and unmaps; a staging buffer goes exactly when its copy succeeds |
| `BufferMapping.Timeline.Destroy` | src/dawn_native/Buffer.cpp:323-341 | calls a waiting request back unless the device is lost or a staging buffer is there, when it stays with the tracker; the other fields and the other buffers stay as they were |
| `BufferMapping.DestroyThenMap` | src/dawn_native/Buffer.cpp:323-341 | a run from any state: a destroyed buffer stays destroyed and refuses a map with Error, or DeviceLost on a lost device |
| `BufferMapping.Timeline.CreateBuffer` | src/dawn_native/Device.cpp:603-635 | a buffer as asked for, mapped and staged only if created mapped, or an error buffer on a lost device |
| `BufferMapping.Timeline.Finish` | src/dawn_native/Buffer.cpp:482-489 | calls exactly the callback that the serial finds, with Success on a live device |
| `BufferMapping.Timeline.TrackerTick` | src/dawn_native/MapRequestTracker.cpp:39-44 | finishes exactly the requests whose serial has passed, in order; the calls are those of the callbacks that these requests find, in the order of the requests, with Success on a live device and DeviceLost on a lost one; whoever waited for a serial that passed is called back; what the application holds stays |
| `BufferMapping.CallsFound` | src/dawn_native/MapRequestTracker.cpp:39-44 | the calls of a tick are those of the requests that are the first to find the callback of their buffer, in order |
| `BufferMapping.AfterFinding` | src/dawn_native/MapRequestTracker.cpp:39-44 | a buffer loses its callback exactly when one of the requests finds it, and is otherwise untouched |
| `BufferMapping.Timeline.Tick` | src/dawn_native/Device.cpp:743-758 | unless the device is lost, advances the completed serial and finishes exactly the due requests; every waiting request whose serial has passed gets Success, and the buffers that stay change in nothing else |
| `BufferMapping.Timeline.ReleaseByApplication` | src/dawn_native/Buffer.cpp:135-141 | the buffer goes exactly when neither the application nor the tracker refers to it; the buffers that stay keep their fields |
| `BufferMapping.Timeline.AssumeCommandsComplete` | src/dawn_native/Device.cpp:332-335 | everything in flight is covered by the faked serial |
| `BufferMapping.Timeline.ShutDown` | src/dawn_native/Device.cpp:120-164 | the tracker ends empty exactly when a serial was faked or nothing waits for the pending serial; then every request there ever was has had exactly one callback |
| `BufferMapping.AnsweredByDestruction` | src/dawn_native/Buffer.cpp:135-141 | in any state at most one callback per request, exactly one once the buffer is gone, and Success only after the serial of the request unless that very buffer has been mapped 2^32 times |
| `ErrorScopes.LivesExactlyWhile` | src/dawn_native/ErrorScope.h:26-37 | a scope lives exactly as long as the current scope or something in flight is under it |
| `ErrorScopes.AncestorsLive` | src/dawn_native/ErrorScope.h:32-33 | the ancestors of a live scope are live |
| `ErrorScopes.RemovedHistory` | src/dawn_native/ErrorScope.cpp:29-33 | a scope that is destroyed was popped, and none of its ancestors has reported |
| `ErrorScopes.ScopeStack.Release` | src/dawn_native/ErrorScope.cpp:29-56 | the last reference destroys the scope, which reports once and drops its parent; otherwise only the count changes, and no scope that stays changes in anything else |
| `ErrorScopes.ScopeStack.PushErrorScope` | src/dawn_native/Device.cpp:238-243 | the new scope becomes current under the old one with its filter, nothing is reported and no other scope changes |
| `ErrorScopes.ScopeStack.PopErrorScope` | src/dawn_native/Device.cpp:245-253 | fails exactly at the root; else the parent becomes current, the popped scope has its callback, and the scopes that stay keep filter, parent and error |
| `ErrorScopes.ScopeStack.HandleError` | src/dawn_native/ErrorScope.cpp:66-120 | a validation error is recorded in the nearest scope of the chain that was pushed with the validation filter, an out-of-memory error in the nearest with that filter, and the root sees them exactly when there is none; other errors are recorded in all scopes of the chain and seen by the root; a scope keeps the first error it records |
| `ErrorScopes.CaptorsTake` | src/dawn_native/ErrorScope.cpp:66-120 | the scopes at which the loop records are the nearest with the filter for the error, or all for a fatal one |
| `ErrorScopes.EarliestIsFirst` | src/dawn_native/ErrorScope.cpp:66-120 | the first error recorded is the first of all errors raised that the scope takes |
| `ErrorScopes.ScopeStack.Track` | src/dawn_native/ErrorScopeTracker.cpp:38-40 | the current scope is in flight until the last submitted serial, and only counts change |
| `ErrorScopes.ScopeStack.Submit` | src/dawn_native/Queue.cpp:63-68 | a submit takes the next serial and keeps the current scope in flight until it; only counts change |
| `ErrorScopes.ScopeStack.AdvanceSerial` | src/dawn_native/Device.cpp:323-325 | a back end submits work of its own, under no scope |
| `ErrorScopes.ScopeStack.Signal` | src/dawn_native/Queue.cpp:77-81 | a signal keeps the current scope in flight until the last submitted serial; only counts change |
| `ErrorScopes.ScopeStack.Tick` | src/dawn_native/ErrorScopeTracker.cpp:42-44 | lets go of exactly the scopes whose serial has passed; the scopes that stay keep filter, parent and error |
| `ErrorScopes.ScopesResolveInOrder` | src/dawn_native/ErrorScope.cpp:29-120 | in any state of every scope: reported at most once, exactly when popped with a callback and nothing under it is current or in flight; everything tracked under it has passed; it got the first of all errors ever raised that it takes by the filters given at the pushes; no ancestor reported before it |
| `ErrorScopes.RoutingStays` | src/dawn_native/Device.cpp:238-243 | a new scope changes nothing that was routed before it, and nothing raised before it is routed to it |
| `ErrorScopes.FilterStays` | src/dawn_native/ErrorScope.cpp:24-27 | a run from any state: push, push again, submit and tick, and the first scope, if it is still there, has the filter it was pushed with |
| `BindGroupLayouts.CompareByKey` | src/dawn_native/BindGroupLayout.cpp:209-242 | with distinct numbers only dynamic, type and number decide |
| `BindGroupLayouts.SortEntries` | src/dawn_native/BindGroupLayout.cpp:285-288 | a sorted permutation |
| `BindGroupLayouts.SortedGivesOrder` | src/dawn_native/BindGroupLayout.cpp:285-343 | sorting gives the one packing order of the content, whatever order the entries came in |
| `BindGroupLayouts.Pack` | src/dawn_native/BindGroupLayout.cpp:282-343 | each entry is packed as it is but for an undefined dimension, which becomes 2D, and nothing else is; dynamic bindings and then buffers come first; the asserts of the source hold |
| `BindGroupLayouts.Equal` | src/dawn_native/BindGroupLayout.cpp:384-395 | the comparison loop decides equality |
| `BindGroupLayouts.EqualExactly` | src/dawn_native/BindGroupLayout.cpp:384-395 | layouts are equal exactly when their contents are |
| `BindGroupLayouts.SameContentExactly` | src/dawn_native/BindGroupLayout.cpp:310-314 | contents are equal exactly when the entries agree field by field, Undefined and 2D counting as the same dimension |
| `BindGroupLayouts.EqualWhateverTheOrder` | src/dawn_native/BindGroupLayout.cpp:373-395 | two descriptors give equal layouts exactly when they bind the same numbers and at each number all fields agree, Undefined and 2D counting as the same dimension, whatever the order of entries |
| `BindGroupLayouts.DynamicByNumberExactly` | src/dawn_native/BindGroupLayout.cpp:220-225 | dynamic bindings are packed in increasing number exactly when their types grow with their numbers |
| `BindGroupLayouts.DynamicNotByNumber` | src/dawn_native/BindGroupLayout.cpp:216-225 | a dynamic storage buffer at 0 is packed behind a dynamic uniform buffer at 1 |
| `LayoutCaches.Caches.GetOrCreateBindGroupLayout` | src/dawn_native/Device.cpp:375-390 | returns the live object with this content if there is one, else a new one; fails only if there is none and the back end fails |
| `LayoutCaches.Caches.FindBgl` | src/dawn_native/Device.cpp:379-383 | finds a cached layout equal to the blueprint exactly when there is one |
| `LayoutCaches.Caches.Drop` | src/dawn_native/Device.cpp:392-396 | the last reference removes exactly one object from the cache, this one |
| `LayoutCaches.Caches.ReleaseBindGroupLayout` | src/dawn_native/BindGroupLayout.cpp:349-354 | the object goes exactly when neither the application nor a pipeline layout refers to it |
| `LayoutCaches.Caches.GetOrCreatePipelineLayout` | src/dawn_native/Device.cpp:421-436 | the same for pipeline layouts, which take a reference to each of their bind group layouts |
| `LayoutCaches.Caches.EqualGroups` | src/dawn_native/PipelineLayout.cpp:282-295 | the comparison loop decides equality of the groups |
| `LayoutCaches.Caches.ReleasePipelineLayout` | src/dawn_native/Device.cpp:438-442 | the last reference removes exactly this object and lets its bind group layouts go, except those that the application holds |
| `LayoutCaches.HeldLayoutsStay` | src/dawn_native/Device.cpp:375-442 | what the application got stays live and keeps its content when a pipeline layout made from it is released |
| `LayoutCaches.SameObjectExactly` | src/dawn_native/Device.cpp:375-390 | two descriptors get the same object exactly when they bind the same, field by field |
| `LayoutCaches.SameBindGroupLayout` | src/dawn_native/Device.cpp:375-396 | live bind group layouts are the same pointer exactly when their contents are deeply equal |
| `LayoutCaches.SamePipelineLayout` | src/dawn_native/Device.cpp:421-442 | live pipeline layouts are the same pointer exactly when their contents are deeply equal, group by group |
| `StructureOrder.LongestFromMembers` | generator/dawn_json_generator.py:252-259 | one more than the deepest member is the longest chain |
| `StructureOrder.DepthComputation.ComputeDepth` | generator/dawn_json_generator.py:248-259 | the memoised depth is the length of the longest dependency chain |
| `StructureOrder.MembersLessDeep` | generator/dawn_json_generator.py:236-242 | a member type lies less deep |
| `StructureOrder.SortIsStable` | generator/dawn_json_generator.py:264-264 | a permutation by depth that keeps input order among equal depths |
| `StructureOrder.TopoSortStructure` | generator/dawn_json_generator.py:243-270 | for any acyclic graph: depths are longest chains, and the result is a stable permutation by depth with every member type first |

## Left out

- Back ends, shader reflection, swap chains, device toggles, the format table and the checks of single descriptor
  fields: foreign calls and finite tables. Where their answers matter they are parameters.
- Hash functions of the caches: layouts are compared as values, so equal layouts have equal hashes, and buckets
  are not modelled.
- Integer widths: sizes, offsets, serials and fence values are unbounded, except for the signed 16-bit offsets of
  slabs, the size_t addition of command sizes and the 32-bit map serials. Slab sizes are taken not to overflow.
- Bit tricks: Align and IsPowerOfTwo are stated arithmetically, and usage masks and binding masks are sets.
- PowersOfTwo.NextPowerOfTwo: does not model the overflow above 2^63, because sizes are unbounded here.
- BuddyAllocation.BuddyAllocator.Allocate: the statement that it fails only without room is for powers of two, the
  sizes that BuddyMemoryAllocator asks for; other sizes get a block smaller than the request, as the code gives.
- ComputeNumOfFreeBlocks and DeleteBlock of the buddy allocator: walks over a tree whose shape is proved.
- Move constructors of slabs, iterators and allocators: used on empty or finished objects only.
- NextData of the command iterator: NextCommandId and NextCommand in a row.
- Render bundles: executing them is one command with the outcome of its check.
- Re-entrant callbacks, and error scopes at shutdown (UnlinkForShutdown).
- BufferMapping.Timeline.CreateBuffer: does not model a back end that stages buffers with a map usage, because none
  does (src/dawn_native/d3d12/BufferD3D12.cpp:236-239 is typical).
- BufferMapping.Timeline.MapAsync: one method for reading and writing, which differ in the callback they set.
- The cached pipelines, samplers, shader modules and attachment states: the same pattern as the layouts.
- DynamicUploader, BindGroupTracker and the barrier tracker: they rest on code of the back ends.
- The rest of the generator: text plumbing.
