/** src/dawn_native/BuddyMemoryAllocator: reference-counted device heaps under the buddy allocator.
    Creating a heap is a call into the backend, so its outcome is a parameter of Allocate. */
module BuddyMemory {
  import opened Wrappers
  import opened PowersOfTwo
  import opened BuddyBlocks
  import opened BuddyAllocation

  type Heap = nat
  datatype TrackedSubAllocations = TrackedSubAllocations(refcount: nat, memory: Option<Heap>)
  datatype Allocation =
    | InvalidAllocation
    | HeapError
    | SubAllocated(blockOffset: nat, offset: nat, heap: Heap)

  /** Which heap an offset of the whole range falls in. */
  function MemoryIndex(offset: nat, size: nat): (i: nat)
    requires size > 0
  {
    if offset < size then 0 else MemoryIndex(offset - size, size) + 1
  }

  lemma {:induction false} IndexIsQuotient(offset: nat, size: nat)
    requires size > 0
    ensures MemoryIndex(offset, size) == offset / size
    ensures MemoryIndex(offset, size) * size <= offset < MemoryIndex(offset, size) * size + size
    ensures offset % size == offset - MemoryIndex(offset, size) * size
  {
    if offset < size {
      DivModUnique(offset, size, 0, offset);
    } else {
      IndexIsQuotient(offset - size, size);
      var i := MemoryIndex(offset - size, size);
      assert (i + 1) * size == i * size + size;
      DivModUnique(offset, size, i + 1, offset - (i + 1) * size);
    }
  }

  /** The handed-out blocks that lie in the heap with the given index. */
  function InHeap(blocks: set<Block>, size: nat, index: nat): (r: set<Block>)
    requires size > 0
  {
    set b | b in blocks && MemoryIndex(b.offset, size) == index
  }

  /** A block no larger than a heap lies in one heap. */
  lemma NeverStraddles(b: Block, size: nat)
    requires IsPow2(b.size) && b.offset % b.size == 0 && IsPow2(size) && b.size <= size
    ensures MemoryIndex(b.offset + b.size - 1, size) == MemoryIndex(b.offset, size)
    ensures b.offset % size + b.size <= size
  {
    var i := MemoryIndex(b.offset, size);
    IndexIsQuotient(b.offset, size);
    IndexIsQuotient(b.offset + b.size - 1, size);
    MultipleMod(i, size);
    Log2Monotone(b.size, size);
    Nested(b.offset, Log2(b.size), i * size, Log2(size));
    DivModUnique(b.offset + b.size - 1, size, i, b.offset - i * size + b.size - 1);
  }

  lemma IndexInRange(offset: nat, size: nat, h: nat)
    requires IsPow2(size) && size <= Pow2(h) && offset < Pow2(h)
    ensures MemoryIndex(offset, size) < Pow2(h) / size && MemoryIndex(offset, size) == offset / size
  {
    Log2OfPow2(h);
    Log2Monotone(size, Pow2(h));
    var c := Pow2Divides(Log2(size), h);
    DivModUnique(Pow2(h), size, c, 0);
    IndexIsQuotient(offset, size);
    MulLess(MemoryIndex(offset, size), c, size);
  }

  /** Allocations of the same heap do not overlap inside it. */
  lemma DisjointInHeap(a: Block, b: Block, size: nat)
    requires size > 0 && MemoryIndex(a.offset, size) == MemoryIndex(b.offset, size)
    requires !Overlap(a.offset, a.size, b.offset, b.size)
    ensures !Overlap(a.offset % size, a.size, b.offset % size, b.size)
  {
    IndexIsQuotient(a.offset, size);
    IndexIsQuotient(b.offset, size);
  }

  class BuddyMemoryAllocator {
    const memoryBlockSize: nat
    const buddy: BuddyAllocator
    var tracked: seq<TrackedSubAllocations>
    ghost var handedOut: set<Block>
    /** Blocks that the buddy allocator has given away and nobody has. */
    ghost var lost: set<Block>

    ghost predicate Valid()
      reads this, buddy
    {
      && buddy.Valid() && IsPow2(memoryBlockSize) && memoryBlockSize <= buddy.maxBlockSize
      && |tracked| == buddy.maxBlockSize / memoryBlockSize
      && Live(buddy.nodes) == handedOut + lost && handedOut !! lost
      && (forall b :: b in handedOut ==> b.size <= memoryBlockSize)
      && (forall i :: 0 <= i < |tracked| ==>
            && tracked[i].refcount == |InHeap(handedOut, memoryBlockSize, i)|
            && (tracked[i].memory.Some? <==> tracked[i].refcount > 0))
    }

    constructor (maxSystemSize: nat, memoryBlockSize: nat)
      requires 0 < maxSystemSize <= MAX_SIZE && IsPow2(maxSystemSize)
      requires IsPow2(memoryBlockSize) && memoryBlockSize <= maxSystemSize
      ensures Valid() && fresh(buddy) && handedOut == {} && lost == {} && buddy.maxBlockSize == maxSystemSize
      ensures Live(buddy.nodes) == {}
      ensures this.memoryBlockSize == memoryBlockSize
    {
      this.memoryBlockSize := memoryBlockSize;
      buddy := new BuddyAllocator(maxSystemSize);
      tracked := seq(maxSystemSize / memoryBlockSize, _ => TrackedSubAllocations(0, None));
      handedOut, lost := {}, {};
      new;
      forall i | 0 <= i < |tracked| ensures InHeap(handedOut, memoryBlockSize, i) == {} { }
    }

    /** Where the buddy allocator will put a request, if anywhere. */
    ghost function Chosen(allocationSize: nat, alignment: nat): (offset: nat)
      reads this, buddy
      requires Valid() && alignment > 0
    {
      var level := buddy.h - Log2(NextPowerOfTwo(allocationSize));
      if allocationSize == 0 || NextPowerOfTwo(allocationSize) > memoryBlockSize then INVALID_OFFSET
      else if level >= |buddy.freeLists| then INVALID_OFFSET
      else Choice(buddy.nodes, buddy.freeLists, level, alignment)
    }

    /** No heap holds the offset yet. */
    predicate NeedsHeap(offset: nat)
      reads this
      requires memoryBlockSize > 0
    {
      MemoryIndex(offset, memoryBlockSize) < |tracked| && tracked[MemoryIndex(offset, memoryBlockSize)].refcount == 0
    }

    /** A failed heap leaves the buddy block taken: HeapError is exactly that case. */
    method Allocate(allocationSize: nat, alignment: nat, newHeap: Option<Heap>) returns (r: Allocation)
      requires Valid() && IsPow2(alignment) && allocationSize <= MAX_SIZE
      modifies this`tracked, this`handedOut, this`lost, buddy
      ensures Valid() && buddy.maxBlockSize == old(buddy.maxBlockSize)
      ensures r.InvalidAllocation? <==> old(Chosen(allocationSize, alignment)) == INVALID_OFFSET
      ensures r.HeapError? <==>
        && old(Chosen(allocationSize, alignment)) != INVALID_OFFSET
        && old(NeedsHeap(Chosen(allocationSize, alignment))) && newHeap.None?
      ensures r.SubAllocated? ==>
        var b := Block(r.blockOffset, NextPowerOfTwo(allocationSize));
        var i := MemoryIndex(b.offset, memoryBlockSize);
        && 0 < allocationSize <= b.size <= memoryBlockSize && r.blockOffset % alignment == 0
        && b !in old(handedOut) && handedOut == old(handedOut) + {b} && r.offset == b.offset % memoryBlockSize
        && i < |tracked| && tracked[i].memory == Some(r.heap)
        && (old(tracked[i].memory).Some? ==> r.heap == old(tracked[i].memory.value))
        && (old(tracked[i].memory).None? ==> newHeap == Some(r.heap))
        && (forall j :: 0 <= j < |tracked| && j != i ==> tracked[j] == old(tracked[j]))
      ensures !r.SubAllocated? ==> handedOut == old(handedOut) && tracked == old(tracked)
      ensures r.InvalidAllocation? ==> Live(buddy.nodes) == old(Live(buddy.nodes)) && lost == old(lost)
      ensures !r.InvalidAllocation? ==>
        var b := Block(old(Chosen(allocationSize, alignment)), NextPowerOfTwo(allocationSize));
        && b !in old(Live(buddy.nodes)) && Live(buddy.nodes) == old(Live(buddy.nodes)) + {b}
        && lost == old(lost) + if r.HeapError? then {b} else {}
      ensures r.SubAllocated? ==>
        && r.blockOffset == old(Chosen(allocationSize, alignment))
        && (alignment <= NextPowerOfTwo(allocationSize) ==>
          BestFit(old(buddy.nodes), NextPowerOfTwo(allocationSize), r.blockOffset))
      ensures 0 < allocationSize && alignment <= NextPowerOfTwo(allocationSize) ==>
        (r.InvalidAllocation? <==>
           || NextPowerOfTwo(allocationSize) > memoryBlockSize
           || NoRoom(old(Live(buddy.nodes)), buddy.h, NextPowerOfTwo(allocationSize)))
    {
      if allocationSize == 0 {
        return InvalidAllocation;
      }
      var size := NextPowerOfTwo(allocationSize);
      if size > memoryBlockSize {
        return InvalidAllocation;
      }
      var blockOffset := Take(size, alignment);
      assert blockOffset == old(Chosen(allocationSize, alignment));
      if blockOffset == INVALID_OFFSET {
        return InvalidAllocation;
      }
      var memoryIndex := blockOffset / memoryBlockSize;
      ghost var b := Block(blockOffset, size);
      var heap := Track(b, memoryIndex, newHeap);
      assert lost == old(lost) + if heap.None? then {b} else {};
      if heap.None? {
        return HeapError;
      }
      // The offset is always local to the heap.
      var memoryOffset := blockOffset % memoryBlockSize;
      r := SubAllocated(blockOffset, memoryOffset, heap.value);
    }

    /** Take a block that is not counted in a heap yet. */
    method Take(size: nat, alignment: nat) returns (blockOffset: nat)
      requires Valid() && IsPow2(size) && size <= memoryBlockSize && IsPow2(alignment)
      modifies this`lost, buddy
      ensures Valid() && buddy.maxBlockSize == old(buddy.maxBlockSize)
      ensures Log2(size) <= buddy.h < |old(buddy.freeLists)|
      ensures blockOffset == old(Choice(buddy.nodes, buddy.freeLists, buddy.h - Log2(size), alignment))
      ensures alignment <= size ==> (blockOffset == INVALID_OFFSET <==> NoRoom(old(Live(buddy.nodes)), buddy.h, size))
      ensures blockOffset == INVALID_OFFSET ==> Live(buddy.nodes) == old(Live(buddy.nodes)) && lost == old(lost)
      ensures blockOffset != INVALID_OFFSET ==>
        var b := Block(blockOffset, size);
        && b !in old(Live(buddy.nodes)) && Live(buddy.nodes) == old(Live(buddy.nodes)) + {b} && lost == old(lost) + {b}
        && blockOffset % alignment == 0 && (alignment <= size ==> BestFit(old(buddy.nodes), size, blockOffset))
        && blockOffset / memoryBlockSize == MemoryIndex(blockOffset, memoryBlockSize) < |tracked|
    {
      ghost var live := Live(buddy.nodes);
      blockOffset := buddy.Allocate(size, alignment);
      if blockOffset != INVALID_OFFSET {
        ghost var b := Block(blockOffset, size);
        assert Clear(live, blockOffset, size) && Overlap(b.offset, b.size, blockOffset, size) && b !in live;
        lost := lost + {b};
        IndexInRange(blockOffset, memoryBlockSize, buddy.h);
      }
    }

    /** Count one more allocation in a heap, creating the heap if it is the first. */
    method Track(ghost b: Block, memoryIndex: nat, newHeap: Option<Heap>) returns (heap: Option<Heap>)
      requires Valid() && b in lost && b.size <= memoryBlockSize
      requires memoryIndex == MemoryIndex(b.offset, memoryBlockSize) < |tracked|
      modifies this`tracked, this`handedOut, this`lost
      ensures Valid()
      ensures heap == if old(tracked[memoryIndex].memory).Some? then old(tracked[memoryIndex].memory) else newHeap
      ensures heap.None? ==> tracked == old(tracked) && handedOut == old(handedOut) && lost == old(lost)
      ensures heap.Some? ==>
        && handedOut == old(handedOut) + {b} && lost == old(lost) - {b}
        && |tracked| == old(|tracked|) && tracked[memoryIndex].memory == heap
      ensures forall i :: 0 <= i < |tracked| && i != memoryIndex ==> tracked[i] == old(tracked[i])
    {
      if tracked[memoryIndex].refcount == 0 {
        if newHeap.None? {
          return None;
        }
        tracked := tracked[memoryIndex := TrackedSubAllocations(0, newHeap)];
      }
      CountAfterAdd(handedOut, b, memoryBlockSize);
      tracked := tracked[memoryIndex := tracked[memoryIndex].(refcount := tracked[memoryIndex].refcount + 1)];
      handedOut, lost := handedOut + {b}, lost - {b};
      heap := tracked[memoryIndex].memory;
    }

    method Deallocate(allocation: Allocation)
      requires Valid() && allocation.SubAllocated?
      requires exists b :: b in handedOut && b.offset == allocation.blockOffset
      modifies this`tracked, this`handedOut, this`lost, buddy
      ensures Valid() && buddy.maxBlockSize == old(buddy.maxBlockSize)
      ensures forall b :: b in old(handedOut) && b.offset == allocation.blockOffset ==>
        && handedOut == old(handedOut) - {b} && lost == old(lost) && Live(buddy.nodes) == old(Live(buddy.nodes)) - {b}
        && (forall i :: 0 <= i < |tracked| && i != MemoryIndex(b.offset, memoryBlockSize) ==>
              tracked[i] == old(tracked[i]))
        && (forall i :: 0 <= i < |tracked| && tracked[i].memory.Some? ==> tracked[i].memory == old(tracked[i].memory))
    {
      ghost var b :| b in handedOut && b.offset == allocation.blockOffset;
      LiveDisjoint(buddy.nodes, buddy.root, buddy.h, b, b);
      OneLiveAt(buddy.nodes, buddy.root, buddy.h, b.offset, b);
      IndexInRange(allocation.blockOffset, memoryBlockSize, buddy.h);
      var memoryIndex := allocation.blockOffset / memoryBlockSize;
      Untrack(b, memoryIndex);
      buddy.Deallocate(allocation.blockOffset);
      lost := lost - {b};
    }

    /** Count one allocation less in a heap, and destroy the heap if it was the last. */
    method Untrack(ghost b: Block, memoryIndex: nat)
      requires Valid() && b in handedOut && memoryIndex == MemoryIndex(b.offset, memoryBlockSize) < |tracked|
      modifies this`tracked, this`handedOut, this`lost
      ensures Valid() && handedOut == old(handedOut) - {b} && lost == old(lost) + {b} && |tracked| == |old(tracked)|
      ensures forall i :: 0 <= i < |tracked| && i != memoryIndex ==> tracked[i] == old(tracked[i])
      ensures tracked[memoryIndex].memory ==
        if tracked[memoryIndex].refcount > 0 then old(tracked[memoryIndex].memory) else None
    {
      CountAfterRemove(handedOut, b, memoryBlockSize);
      assert tracked[memoryIndex].refcount > 0;
      tracked := tracked[memoryIndex := tracked[memoryIndex].(refcount := tracked[memoryIndex].refcount - 1)];
      if tracked[memoryIndex].refcount == 0 {
        tracked := tracked[memoryIndex := tracked[memoryIndex].(memory := None)];
      }
      handedOut, lost := handedOut - {b}, lost + {b};
    }

    /** Handed-out allocations are in bounds, aligned, in one heap each and disjoint inside it. */
    lemma HandedOutLayout(a: Block, b: Block)
      requires Valid() && a in handedOut && b in handedOut
      ensures a.size > 0 && a.offset + a.size <= buddy.maxBlockSize && a.offset % a.size == 0
      ensures MemoryIndex(a.offset + a.size - 1, memoryBlockSize) == MemoryIndex(a.offset, memoryBlockSize) < |tracked|
      ensures a.offset % memoryBlockSize + a.size <= memoryBlockSize
      ensures tracked[MemoryIndex(a.offset, memoryBlockSize)].memory.Some?
      ensures a != b && MemoryIndex(a.offset, memoryBlockSize) == MemoryIndex(b.offset, memoryBlockSize) ==>
        !Overlap(a.offset % memoryBlockSize, a.size, b.offset % memoryBlockSize, b.size)
    {
      LiveDisjoint(buddy.nodes, buddy.root, buddy.h, a, b);
      NeverStraddles(a, memoryBlockSize);
      IndexInRange(a.offset, memoryBlockSize, buddy.h);
      CountAfterRemove(handedOut, a, memoryBlockSize);
      if a != b && MemoryIndex(a.offset, memoryBlockSize) == MemoryIndex(b.offset, memoryBlockSize) {
        DisjointInHeap(a, b, memoryBlockSize);
      }
    }
  }

  /** One failed heap, and the only block is gone although nothing was handed out. */
  method FailedHeapLosesBlock(heap: Heap) returns (first: Allocation, second: Allocation)
    ensures first == HeapError && second == InvalidAllocation
  {
    SmallPowers();
    var a := new BuddyMemoryAllocator(1, 1);
    Log2OfPow2(a.buddy.h);
    assert Room(Live(a.buddy.nodes), a.buddy.h, 0, 1);
    first := a.Allocate(1, 1, None);
    OneBlockFull(a.buddy.nodes, a.buddy.root);
    second := a.Allocate(1, 1, Some(heap));
  }

  lemma OneBlockFull(s: Store, root: Ptr)
    requires Tree(s, root, 0) && Live(s) != {}
    ensures NoRoom(Live(s), 0, 1)
  {
    SmallPowers();
    var b := SomeElement(Live(s));
    LiveDisjoint(s, root, 0, b, b);
    forall o ensures !Room(Live(s), 0, o, 1) {
      assert Overlap(b.offset, b.size, 0, 1);
    }
  }

  lemma CountAfterAdd(blocks: set<Block>, b: Block, size: nat)
    requires size > 0 && b !in blocks
    ensures forall i: nat ::
      |InHeap(blocks + {b}, size, i)| == |InHeap(blocks, size, i)| + if i == MemoryIndex(b.offset, size) then 1 else 0
  {
    var here := MemoryIndex(b.offset, size);
    forall i: nat
      ensures |InHeap(blocks + {b}, size, i)| == |InHeap(blocks, size, i)| + if i == here then 1 else 0
    {
      if i == MemoryIndex(b.offset, size) {
        assert InHeap(blocks + {b}, size, i) == InHeap(blocks, size, i) + {b};
      } else {
        assert InHeap(blocks + {b}, size, i) == InHeap(blocks, size, i);
      }
    }
  }

  lemma CountAfterRemove(blocks: set<Block>, b: Block, size: nat)
    requires size > 0 && b in blocks
    ensures forall i: nat ::
      |InHeap(blocks, size, i)| == |InHeap(blocks - {b}, size, i)| + if i == MemoryIndex(b.offset, size) then 1 else 0
  {
    CountAfterAdd(blocks - {b}, b, size);
    assert blocks - {b} + {b} == blocks;
  }
}
