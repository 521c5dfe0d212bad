/** src/common/SlabAllocator: fixed-size objects carved out of slabs, a free chain of block indices
    inside each slab, and slabs kept in three lists. `new char[]` is a call into the C++ runtime, so
    the address of a new allocation is a parameter. */
module SlabAllocation {
  import opened PowersOfTwo
  import opened SlabLists
  import opened PointerLists
  import opened Wrappers

  /** Index is uint16_t and its largest value ends a chain. */
  const INVALID_INDEX: nat := 65535

  datatype IndexLinkNode = IndexLinkNode(index: nat, nextIndex: nat)
  type NodeStore = map<Addr, IndexLinkNode>

  /** Conversion to std::make_signed_t<Index> of a difference of two indices. */
  function ToInt16(x: int): (r: int)
    requires -65536 < x < 65536
    ensures -32768 <= r <= 32767 && (r == x || r == x + 65536 || r == x - 65536)
  {
    if x > 32767 then x - 65536 else if x < -32768 then x + 65536 else x
  }

  /** The constant members that the constructor computes, with the sizes they are computed from. */
  datatype Layout = Layout(blocksPerSlab: nat, objectSize: nat, objectAlignment: nat, sizeofSlab: nat, sizeofNode: nat,
                           allocationAlignment: nat, slabBlocksOffset: nat, indexLinkNodeOffset: nat, blockStride: nat)
  {
    /** What the members promise: enough room, and offsets that keep objects aligned. */
    ghost predicate Valid() {
      && 1 <= blocksPerSlab <= 32768 && sizeofSlab > 0 && sizeofNode > 0
      && slabBlocksOffset >= sizeofSlab && indexLinkNodeOffset >= objectSize
      && blockStride >= indexLinkNodeOffset + sizeofNode
      && IsPow2(objectAlignment) && IsPow2(allocationAlignment) && objectAlignment <= allocationAlignment
      && slabBlocksOffset % objectAlignment == 0 && blockStride % objectAlignment == 0
    }

    /** Slab header and blocks, without the padding for alignment. */
    function Extent(): (r: nat) {
      slabBlocksOffset + Times(blockStride, blocksPerSlab)
    }

    function TotalAllocationSize(): (r: nat) {
      Extent() + allocationAlignment
    }

    function ObjectAt(slab: Addr, i: nat): (a: Addr)
      requires Valid()
    {
      slab + slabBlocksOffset + Times(blockStride, i)
    }

    function NodeAt(slab: Addr, i: nat): (a: Addr)
      requires Valid()
    {
      ObjectAt(slab, i) + indexLinkNodeOffset
    }

    /** The node |offset| slots away, the slot count passed as a 16-bit signed number. */
    function OffsetFrom(node: Addr, offset: int): (a: int)
      requires -65536 < offset < 65536
    {
      node + TimesInt(blockStride, ToInt16(offset))
    }
  }

  /** The constructor's initialisers: alignof(Slab) and alignof(IndexLinkNode) come from the platform. */
  function MakeLayout(blocksPerSlab: nat, objectSize: nat, objectAlignment: nat, sizeofSlab: nat, alignofSlab: nat,
                      sizeofNode: nat, alignofNode: nat): (lay: Layout)
    requires 1 <= blocksPerSlab <= 32768 && IsPow2(objectAlignment) && IsPow2(alignofSlab) && alignofNode > 0
    requires sizeofSlab > 0 && sizeofNode > 0
    ensures lay.Valid() && lay.blocksPerSlab == blocksPerSlab && lay.objectSize == objectSize
    ensures lay.objectAlignment == objectAlignment && lay.sizeofSlab == sizeofSlab && lay.sizeofNode == sizeofNode
    ensures lay.allocationAlignment >= alignofSlab && lay.allocationAlignment >= objectAlignment
    ensures lay.allocationAlignment == alignofSlab || lay.allocationAlignment == objectAlignment
    ensures sizeofSlab <= lay.slabBlocksOffset < sizeofSlab + objectAlignment
    ensures objectSize <= lay.indexLinkNodeOffset < objectSize + alignofNode
    ensures lay.indexLinkNodeOffset % alignofNode == 0
    ensures var needed := lay.indexLinkNodeOffset + sizeofNode; needed <= lay.blockStride < needed + objectAlignment
  {
    var nodeOffset := Align(objectSize, alignofNode);
    Layout(blocksPerSlab, objectSize, objectAlignment, sizeofSlab, sizeofNode,
           if alignofSlab < objectAlignment then objectAlignment else alignofSlab,
           Align(sizeofSlab, objectAlignment), nodeOffset, Align(nodeOffset + sizeofNode, objectAlignment))
  }

  function TimesInt(n: nat, k: int): (r: int) {
    if k >= 0 then Times(n, k) else 0 - Times(n, 0 - k)
  }

  lemma {:induction false} TimesAligned(n: nat, k: nat, alignment: nat)
    requires alignment > 0 && n % alignment == 0
    ensures Times(n, k) % alignment == 0
  {
    if k > 0 {
      TimesAligned(n, k - 1, alignment);
      SumAligned(Times(n, k - 1), n, alignment);
    }
  }

  lemma SumAligned(x: nat, y: nat, alignment: nat)
    requires alignment > 0 && x % alignment == 0 && y % alignment == 0
    ensures (x + y) % alignment == 0
  {
    var i := Quotient(x, alignment);
    var j := Quotient(y, alignment);
    assert x + y == (i + j) * alignment;
    MultipleMod(i + j, alignment);
  }

  /** OffsetFrom moves from slot i to slot j as long as the distance fits a signed 16-bit number. */
  lemma OffsetFromMoves(lay: Layout, slab: Addr, i: nat, j: nat)
    requires lay.Valid() && i < lay.blocksPerSlab && j < lay.blocksPerSlab
    ensures lay.OffsetFrom(lay.NodeAt(slab, i), j - i) == lay.NodeAt(slab, j)
  {
    assert ToInt16(j - i) == j - i;
    if i <= j {
      TimesSplit(lay.blockStride, i, j - i);
    } else {
      TimesSplit(lay.blockStride, j, i - j);
    }
  }

  /** Every distance between two slots survives the conversion exactly when there are at most 32768. */
  lemma DistancesFit(n: nat)
    requires 0 < n <= 65535
    ensures (forall i, j :: 0 <= i < n && 0 <= j < n ==> DistanceFits(i, j)) <==> n <= 32768
  {
    if n > 32768 {
      assert !DistanceFits(0, 32768);
    }
  }

  predicate DistanceFits(i: nat, j: nat)
    requires i < 65536 && j < 65536
  {
    ToInt16(j - i) == j - i
  }

  /** The slots of a slab: objects and nodes lie in the slab, in order, without overlap. */
  lemma SlotsApart(lay: Layout, slab: Addr, i: nat, j: nat)
    requires lay.Valid() && i < lay.blocksPerSlab && j < lay.blocksPerSlab
    ensures slab + lay.sizeofSlab <= lay.ObjectAt(slab, i)
    ensures lay.ObjectAt(slab, i) + lay.objectSize <= lay.NodeAt(slab, i)
    ensures lay.NodeAt(slab, i) + lay.sizeofNode <= slab + lay.Extent()
    ensures i < j ==> lay.NodeAt(slab, i) + lay.sizeofNode <= lay.ObjectAt(slab, j)
  {
    TimesApart(lay.blockStride, i, lay.blocksPerSlab);
    if i < j { TimesApart(lay.blockStride, i, j); }
  }

  ghost predicate Apart(lay: Layout, s: Addr, t: Addr)
    requires lay.Valid()
  {
    s + lay.Extent() <= t || t + lay.Extent() <= s
  }

  /** A node's address tells its slab and its slot. */
  lemma NodesDistinct(lay: Layout, s: Addr, i: nat, t: Addr, j: nat)
    requires lay.Valid() && i < lay.blocksPerSlab && j < lay.blocksPerSlab
    requires s != t ==> Apart(lay, s, t)
    requires lay.NodeAt(s, i) == lay.NodeAt(t, j)
    ensures s == t && i == j
  {
    SlotsApart(lay, s, i, j);
    SlotsApart(lay, t, j, i);
  }

  /** An aligned slab aligns its objects. */
  lemma ObjectsAligned(lay: Layout, slab: Addr, i: nat)
    requires lay.Valid() && slab % lay.allocationAlignment == 0
    ensures lay.ObjectAt(slab, i) % lay.objectAlignment == 0
  {
    var a := lay.objectAlignment;
    AlignedToLess(slab, lay.allocationAlignment, a);
    TimesAligned(lay.blockStride, i, a);
    SumAligned(slab, lay.slabBlocksOffset, a);
    SumAligned(slab + lay.slabBlocksOffset, Times(lay.blockStride, i), a);
  }

  /** Two live objects do not overlap. */
  lemma ObjectsDisjoint(lay: Layout, s: Addr, i: nat, t: Addr, j: nat)
    requires lay.Valid() && i < lay.blocksPerSlab && j < lay.blocksPerSlab
    requires s != t ==> Apart(lay, s, t)
    requires s != t || i != j
    ensures !Overlap(lay.ObjectAt(s, i), lay.objectSize, lay.ObjectAt(t, j), lay.objectSize)
  {
    SlotsApart(lay, s, i, j);
    SlotsApart(lay, t, j, i);
  }

  /** What the constructor's arguments promise of two objects of an aligned slab: they are aligned, they lie
      behind the slab's header, each before its own node, and no object meets another object or node. */
  lemma ObjectsFromArguments(blocksPerSlab: nat, objectSize: nat, objectAlignment: nat, sizeofSlab: nat,
                             alignofSlab: nat, sizeofNode: nat, alignofNode: nat, s: Addr, i: nat, j: nat)
    requires 1 <= blocksPerSlab <= 32768 && IsPow2(objectAlignment) && IsPow2(alignofSlab) && alignofNode > 0
    requires sizeofSlab > 0 && sizeofNode > 0 && i < blocksPerSlab && j < blocksPerSlab
    ensures var lay :=
        MakeLayout(blocksPerSlab, objectSize, objectAlignment, sizeofSlab, alignofSlab, sizeofNode, alignofNode);
      && (s % lay.allocationAlignment == 0 ==> lay.ObjectAt(s, i) % objectAlignment == 0)
      && s + sizeofSlab <= lay.ObjectAt(s, i) && lay.ObjectAt(s, i) + objectSize <= lay.NodeAt(s, i)
      && lay.NodeAt(s, i) + sizeofNode <= s + lay.Extent()
      && lay.TotalAllocationSize() == lay.slabBlocksOffset + lay.blockStride * blocksPerSlab + lay.allocationAlignment
      && (i != j ==>
        && !Overlap(lay.ObjectAt(s, i), objectSize, lay.ObjectAt(s, j), objectSize)
        && !Overlap(lay.ObjectAt(s, i), objectSize, lay.NodeAt(s, j), sizeofNode)
        && !Overlap(lay.NodeAt(s, i), sizeofNode, lay.NodeAt(s, j), sizeofNode))
  {
    var lay := MakeLayout(blocksPerSlab, objectSize, objectAlignment, sizeofSlab, alignofSlab, sizeofNode, alignofNode);
    SlotsApart(lay, s, i, j);
    SlotsApart(lay, s, j, i);
    TimesIsProduct(lay.blockStride, blocksPerSlab);
    if s % lay.allocationAlignment == 0 { ObjectsAligned(lay, s, i); }
  }

  /** The nodes are aligned too, since the size of a C++ type is a multiple of its alignment. */
  lemma NodesAligned(blocksPerSlab: nat, objectSize: nat, objectAlignment: nat, sizeofSlab: nat, alignofSlab: nat,
                     sizeofNode: nat, alignofNode: nat, s: Addr, i: nat)
    requires 1 <= blocksPerSlab <= 32768 && IsPow2(objectAlignment) && IsPow2(alignofSlab) && IsPow2(alignofNode)
    requires sizeofSlab > 0 && sizeofNode > 0 && alignofNode <= alignofSlab
    requires sizeofSlab % alignofSlab == 0 && sizeofNode % alignofNode == 0
    ensures var lay :=
        MakeLayout(blocksPerSlab, objectSize, objectAlignment, sizeofSlab, alignofSlab, sizeofNode, alignofNode);
      s % lay.allocationAlignment == 0 ==> lay.NodeAt(s, i) % alignofNode == 0
  {
    var lay := MakeLayout(blocksPerSlab, objectSize, objectAlignment, sizeofSlab, alignofSlab, sizeofNode, alignofNode);
    if s % lay.allocationAlignment == 0 {
      StridesAligned(lay, alignofSlab, alignofNode);
      AlignedToLess(s, lay.allocationAlignment, alignofNode);
      TimesAligned(lay.blockStride, i, alignofNode);
      SumAligned(s, lay.slabBlocksOffset, alignofNode);
      SumAligned(s + lay.slabBlocksOffset, Times(lay.blockStride, i), alignofNode);
      SumAligned(lay.ObjectAt(s, i), lay.indexLinkNodeOffset, alignofNode);
    }
  }

  /** Rounding up to a smaller alignment leaves a multiple of a larger one alone. */
  lemma StridesAligned(lay: Layout, alignofSlab: nat, alignofNode: nat)
    requires lay.Valid() && IsPow2(alignofSlab) && IsPow2(alignofNode) && alignofNode <= alignofSlab
    requires lay.sizeofSlab % alignofSlab == 0 && lay.sizeofNode % alignofNode == 0
    requires lay.indexLinkNodeOffset % alignofNode == 0
    requires lay.slabBlocksOffset < lay.sizeofSlab + lay.objectAlignment
    requires lay.blockStride < lay.indexLinkNodeOffset + lay.sizeofNode + lay.objectAlignment
    ensures lay.slabBlocksOffset % alignofNode == 0 && lay.blockStride % alignofNode == 0
  {
    var a := lay.objectAlignment;
    if alignofNode <= a {
      AlignedToLess(lay.slabBlocksOffset, a, alignofNode);
      AlignedToLess(lay.blockStride, a, alignofNode);
    } else {
      AlignedToLess(lay.sizeofSlab, alignofSlab, alignofNode);
      SumAligned(lay.indexLinkNodeOffset, lay.sizeofNode, alignofNode);
      AlignedToLess(lay.sizeofSlab, alignofNode, a);
      AlignedToLess(lay.indexLinkNodeOffset + lay.sizeofNode, alignofNode, a);
      CloseMultiples(lay.sizeofSlab, lay.slabBlocksOffset, a);
      CloseMultiples(lay.indexLinkNodeOffset + lay.sizeofNode, lay.blockStride, a);
    }
  }

  ghost predicate ChainLink(lay: Layout, nodes: NodeStore, s: Addr, c: seq<nat>, i: nat)
    requires lay.Valid() && i < |c|
  {
    && c[i] < lay.blocksPerSlab && lay.NodeAt(s, c[i]) in nodes
    && nodes[lay.NodeAt(s, c[i])].nextIndex == if i + 1 < |c| then c[i + 1] else INVALID_INDEX
  }

  /** c lists the block indices that the chain starting at freeList runs through. */
  ghost predicate ChainOk(lay: Layout, nodes: NodeStore, s: Addr, freeList: Addr, c: seq<nat>)
    requires lay.Valid()
  {
    && (c == [] ==> freeList == NULL)
    && (c != [] ==> freeList == lay.NodeAt(s, c[0]))
    && Distinct(c)
    && forall i {:trigger ChainLink(lay, nodes, s, c, i)} :: 0 <= i < |c| ==> ChainLink(lay, nodes, s, c, i)
  }

  ghost predicate IndexOk(lay: Layout, nodes: NodeStore, s: Addr, i: nat)
    requires lay.Valid()
  {
    lay.NodeAt(s, i) in nodes && nodes[lay.NodeAt(s, i)].index == i
  }

  /** A slab's blocks know their index, and its chain lists exactly its unused blocks. */
  ghost predicate SlabOk(lay: Layout, nodes: NodeStore, s: Addr, slab: Slab, c: seq<nat>)
    requires lay.Valid()
  {
    && s % lay.allocationAlignment == 0
    && ChainOk(lay, nodes, s, slab.freeList, c) && slab.blocksInUse + |c| == lay.blocksPerSlab
    && forall i {:trigger IndexOk(lay, nodes, s, i)} :: 0 <= i < lay.blocksPerSlab ==> IndexOk(lay, nodes, s, i)
  }

  lemma NodeNotNull(lay: Layout, s: Addr, i: nat)
    requires lay.Valid()
    ensures lay.NodeAt(s, i) != NULL
  {
  }

  /** Writing another slab's node does not disturb a slab. */
  lemma SlabFrame(lay: Layout, nodes: NodeStore, nodes': NodeStore, s: Addr, slab: Slab, c: seq<nat>)
    requires lay.Valid() && SlabOk(lay, nodes, s, slab, c)
    requires forall i :: 0 <= i < lay.blocksPerSlab && lay.NodeAt(s, i) in nodes ==>
      lay.NodeAt(s, i) in nodes' && nodes'[lay.NodeAt(s, i)] == nodes[lay.NodeAt(s, i)]
    ensures SlabOk(lay, nodes', s, slab, c)
  {
    forall i | 0 <= i < |c| ensures ChainLink(lay, nodes', s, c, i) {
      assert ChainLink(lay, nodes, s, c, i);
    }
    forall i | 0 <= i < lay.blocksPerSlab ensures IndexOk(lay, nodes', s, i) {
      assert IndexOk(lay, nodes, s, i);
    }
  }

  /** The node store after a freed block's node has been put in front of the chain. */
  function Linked(nodes: NodeStore, head: Addr, node: Addr): (r: NodeStore)
    requires node in nodes && (head != NULL ==> head in nodes)
  {
    nodes[node := nodes[node].(nextIndex := if head == NULL then INVALID_INDEX else nodes[head].index)]
  }

  lemma PushOk(lay: Layout, nodes: NodeStore, s: Addr, slab: Slab, c: seq<nat>, i: nat)
    requires lay.Valid() && SlabOk(lay, nodes, s, slab, c) && i < lay.blocksPerSlab && i !in c
    ensures lay.NodeAt(s, i) in nodes && nodes[lay.NodeAt(s, i)].index == i && slab.blocksInUse > 0
    ensures slab.freeList != NULL ==> slab.freeList in nodes
    ensures SlabOk(lay, Linked(nodes, slab.freeList, lay.NodeAt(s, i)), s,
                   slab.(freeList := lay.NodeAt(s, i), blocksInUse := slab.blocksInUse - 1), [i] + c)
  {
    assert IndexOk(lay, nodes, s, i);
    if c != [] {
      assert ChainLink(lay, nodes, s, c, 0) && IndexOk(lay, nodes, s, c[0]);
      NodeNotNull(lay, s, c[0]);
    }
    IndicesBounded(c + [i], lay, nodes, s, c, i);
    var node, c' := lay.NodeAt(s, i), [i] + c;
    var nodes' := Linked(nodes, slab.freeList, node);
    forall j | 0 <= j < |c'| ensures ChainLink(lay, nodes', s, c', j) {
      if j > 0 {
        assert ChainLink(lay, nodes, s, c, j - 1) && c'[j] == c[j - 1] && c[j - 1] in c;
        if lay.NodeAt(s, c[j - 1]) == node { NodesDistinct(lay, s, c[j - 1], s, i); }
      }
    }
    forall j | 0 <= j < lay.blocksPerSlab ensures IndexOk(lay, nodes', s, j) {
      assert IndexOk(lay, nodes, s, j);
    }
    assert Distinct(c');
  }

  /** A chain that misses a block is shorter than the slab. */
  lemma IndicesBounded(d: seq<nat>, lay: Layout, nodes: NodeStore, s: Addr, c: seq<nat>, i: nat)
    requires lay.Valid() && ChainOk(lay, nodes, s, if c == [] then NULL else lay.NodeAt(s, c[0]), c)
    requires i < lay.blocksPerSlab && i !in c && d == c + [i]
    ensures |c| < lay.blocksPerSlab
  {
    forall k | 0 <= k < |d| ensures d[k] < lay.blocksPerSlab {
      if k < |c| { assert ChainLink(lay, nodes, s, c, k); }
    }
    Pigeonhole(d, lay.blocksPerSlab);
  }

  /** The indices below n. */
  function Below(n: nat): (r: set<nat>)
    ensures |r| == n && forall x: nat :: x in r <==> x < n
  {
    if n == 0 then {} else Below(n - 1) + {n - 1}
  }

  lemma Pigeonhole(d: seq<nat>, n: nat)
    requires Distinct(d) && forall k :: 0 <= k < |d| ==> d[k] < n
    ensures |d| <= n
  {
    CountMembers(d);
    forall x | x in Members(d) ensures x in Below(n) {
      var k :| 0 <= k < |d| && d[k] == x;
    }
    SubsetSize(Members(d), Below(n));
  }

  function Members(d: seq<nat>): (r: set<nat>)
    ensures forall x :: x in r <==> x in d
  {
    if d == [] then {} else Members(d[1..]) + {d[0]}
  }

  lemma {:induction false} CountMembers(d: seq<nat>)
    requires Distinct(d)
    ensures |Members(d)| == |d|
  {
    if d != [] {
      assert d[0] !in d[1..];
      CountMembers(d[1..]);
    }
  }

  lemma PopOk(lay: Layout, nodes: NodeStore, s: Addr, slab: Slab, c: seq<nat>)
    requires lay.Valid() && SlabOk(lay, nodes, s, slab, c) && c != []
    ensures slab.freeList == lay.NodeAt(s, c[0]) && slab.freeList in nodes && c[0] < lay.blocksPerSlab
    ensures slab.freeList != NULL && slab.blocksInUse < lay.blocksPerSlab
    ensures nodes[slab.freeList].index < 65536 && nodes[slab.freeList].nextIndex < 65536
    ensures var head := nodes[slab.freeList];
      && (head.nextIndex == INVALID_INDEX <==> |c| == 1)
      && (|c| > 1 ==> lay.OffsetFrom(slab.freeList, head.nextIndex - head.index) == lay.NodeAt(s, c[1]))
    ensures SlabOk(lay, nodes, s,
                   slab.(freeList := if |c| == 1 then NULL else lay.NodeAt(s, c[1]),
                     blocksInUse := slab.blocksInUse + 1), c[1..])
  {
    assert ChainLink(lay, nodes, s, c, 0) && IndexOk(lay, nodes, s, c[0]);
    NodeNotNull(lay, s, c[0]);
    if |c| > 1 {
      assert ChainLink(lay, nodes, s, c, 1);
      OffsetFromMoves(lay, s, c[0], c[1]);
    }
    forall j | 0 <= j < |c[1..]| ensures ChainLink(lay, nodes, s, c[1..], j) {
      assert ChainLink(lay, nodes, s, c, j + 1);
    }
  }

  const AVAILABLE: Addr := 1
  const FULL: Addr := 2
  const RECYCLED: Addr := 3

  /** The blocks in use, as pairs of slab and slot. */
  function Used(chains: map<Addr, seq<nat>>, n: nat): (r: set<(Addr, nat)>) {
    set s, i | s in chains && i in Below(n) && i !in chains[s] :: (s, i)
  }

  function AllSlots(slabs: set<Addr>, n: nat): (r: set<(Addr, nat)>) {
    set s, i | s in slabs && i in Below(n) :: (s, i)
  }

  lemma {:induction false} CountSlots(slabs: set<Addr>, n: nat)
    ensures |AllSlots(slabs, n)| == Times(n, |slabs|)
  {
    if slabs == {} {
      assert AllSlots(slabs, n) == {};
    } else {
      var s :| s in slabs;
      CountSlots(slabs - {s}, n);
      CountRow(s, n);
      RowApart(slabs, s, n);
      CountUnion(AllSlots(slabs, n), AllSlots(slabs - {s}, n), Row(s, n), slabs, s, n);
    }
  }

  lemma RowApart(slabs: set<Addr>, s: Addr, n: nat)
    requires s in slabs
    ensures AllSlots(slabs, n) == AllSlots(slabs - {s}, n) + Row(s, n) && AllSlots(slabs - {s}, n) !! Row(s, n)
  {
  }

  lemma CountUnion<T>(all: set<T>, a: set<T>, b: set<T>, slabs: set<Addr>, s: Addr, n: nat)
    requires s in slabs && all == a + b && a !! b && |a| == Times(n, |slabs - {s}|) && |b| == n
    ensures |all| == Times(n, |slabs|)
  {
    assert |slabs| == |slabs - {s}| + 1;
  }

  function Row(s: Addr, n: nat): (r: set<(Addr, nat)>) {
    set i | i in Below(n) :: (s, i)
  }

  lemma {:induction false} CountRow(s: Addr, n: nat)
    ensures |Row(s, n)| == n
  {
    if n == 0 {
      assert Row(s, n) == {};
    } else {
      CountRow(s, n - 1);
      assert Row(s, n) == Row(s, n - 1) + {(s, n - 1)};
    }
  }

  /** No more blocks are in use than there are slots, and all are when every chain is empty. */
  lemma UsedBound(chains: map<Addr, seq<nat>>, n: nat)
    ensures |Used(chains, n)| <= Times(n, |chains|)
    ensures (forall s :: s in chains ==> chains[s] == []) ==> |Used(chains, n)| == Times(n, |chains|)
  {
    CountSlots(chains.Keys, n);
    SubsetSize(Used(chains, n), AllSlots(chains.Keys, n));
    if forall s :: s in chains ==> chains[s] == [] {
      assert Used(chains, n) == AllSlots(chains.Keys, n);
    }
  }

  /** q is the quotient of p by n, rounded up. */
  predicate IsCeil(q: nat, p: nat, n: nat) {
    p <= Times(n, q) && (q > 0 ==> Times(n, q - 1) < p)
  }

  lemma CeilIsQuotient(q: nat, p: nat, n: nat)
    requires n > 0 && IsCeil(q, p, n)
    ensures q == (p + n - 1) / n
  {
    TimesIsProduct(n, q);
    if q > 0 {
      TimesIsProduct(n, q - 1);
      assert n * q == n * (q - 1) + n;
      DivModUnique(p + n - 1, n, q, p + n - 1 - n * q);
    } else {
      DivModUnique(p + n - 1, n, 0, n - 1);
    }
  }

  /** Every slab is in exactly one of the three lists. */
  ghost predicate Lists(slabs: SlabStore, available: seq<Addr>, full: seq<Addr>, recycled: seq<Addr>, all: set<Addr>) {
    && ListOk(slabs, AVAILABLE, available) && ListOk(slabs, FULL, full) && ListOk(slabs, RECYCLED, recycled)
    && slabs.Keys == all + {AVAILABLE, FULL, RECYCLED}
    && AVAILABLE !in all && FULL !in all && RECYCLED !in all
    && (forall s :: s in all <==> s in available || s in full || s in recycled)
    && (forall s :: s in full ==> s !in available && s !in recycled)
    && (forall s :: s in available ==> s !in recycled)
  }

  /** Every slab is consistent and the slabs' memory does not overlap. */
  ghost predicate Blocks(lay: Layout, slabs: SlabStore, nodes: NodeStore, chains: map<Addr, seq<nat>>)
    requires lay.Valid()
  {
    && chains.Keys <= slabs.Keys
    && (forall s {:trigger SlabOk(lay, nodes, s, slabs[s], chains[s])} :: s in chains ==>
      SlabOk(lay, nodes, s, slabs[s], chains[s]))
    && (forall s, t {:trigger Apart(lay, s, t)} :: s in chains && t in chains && s != t ==> Apart(lay, s, t))
  }

  /** Writing a slab's own fields keeps the lists. */
  lemma FieldsKeepLists(s: SlabStore, t: SlabStore, available: seq<Addr>, full: seq<Addr>,
                        recycled: seq<Addr>, all: set<Addr>, slab: Addr)
    requires Lists(s, available, full, recycled, all) && slab in all
    requires slab in t && t == s[slab := t[slab]] && t[slab].prev == s[slab].prev && t[slab].next == s[slab].next
    ensures Lists(t, available, full, recycled, all)
  {
    ListFrame(s, t, AVAILABLE, available);
    ListFrame(s, t, FULL, full);
    ListFrame(s, t, RECYCLED, recycled);
  }

  /** A slab that has just filled up leaves the front of the available ones for that of the full ones. */
  ghost predicate MovedOn(chains: map<Addr, seq<nat>>, slab: Addr, available: seq<Addr>, available': seq<Addr>,
                          full: seq<Addr>, full': seq<Addr>) {
    && slab in chains && available != []
    && (chains[slab] == [] ==> available' == available[1..] && full' == [slab] + full)
    && (chains[slab] != [] ==> available' == available && full' == full)
  }

  /** A slab that was full leaves the full ones, wherever it stands, for the front of the recycled ones. */
  ghost predicate MovedBack(chains: map<Addr, seq<nat>>, slab: Addr, full: seq<Addr>, full': seq<Addr>,
                            recycled: seq<Addr>, recycled': seq<Addr>) {
    && slab in chains
    && (chains[slab] == [] ==>
      && recycled' == [slab] + recycled
      && exists k :: 0 <= k < |full| && full[k] == slab && full' == Without(full, k))
    && (chains[slab] != [] ==> full' == full && recycled' == recycled)
  }

  class SlabAllocator {
    const lay: Layout
    var slabs: SlabStore
    var nodes: NodeStore
    ghost var available: seq<Addr>
    ghost var full: seq<Addr>
    ghost var recycled: seq<Addr>
    ghost var chains: map<Addr, seq<nat>>
    ghost var peak: nat

    ghost predicate Inv(moving: set<Addr>)
      reads this
    {
      && lay.Valid() && Lists(slabs, available, full, recycled, chains.Keys) && Blocks(lay, slabs, nodes, chains)
      && (forall s :: s in chains && s !in moving ==> (s in full <==> chains[s] == []))
    }

    /** The slabs created so far are just enough for the most objects that were ever live at once. */
    ghost predicate Valid()
      reads this
    {
      && Inv({}) && IsCeil(|chains|, peak, lay.blocksPerSlab)
      && |Used(chains, lay.blocksPerSlab)| <= peak
    }

    constructor (lay: Layout)
      requires lay.Valid()
      ensures Valid() && this.lay == lay && chains == map[] && peak == 0
    {
      this.lay := lay;
      var sentinel := Slab(NULL, NULL, NULL, 0);
      slabs := map[AVAILABLE := sentinel, FULL := sentinel, RECYCLED := sentinel];
      nodes := map[];
      available, full, recycled, chains, peak := [], [], [], map[], 0;
      new;
      UsedBound(chains, lay.blocksPerSlab);
    }

    /** Live objects are aligned, lie in the memory of their slab, and do not overlap. */
    lemma LiveObjects(s: Addr, i: nat, t: Addr, j: nat)
      requires Valid() && (s, i) in Used(chains, lay.blocksPerSlab) && (t, j) in Used(chains, lay.blocksPerSlab)
      ensures lay.ObjectAt(s, i) % lay.objectAlignment == 0
      ensures s + lay.sizeofSlab <= lay.ObjectAt(s, i)
      ensures lay.ObjectAt(s, i) + lay.objectSize <= lay.NodeAt(s, i) < s + lay.Extent()
      ensures (s, i) != (t, j) ==> !Overlap(lay.ObjectAt(s, i), lay.objectSize, lay.ObjectAt(t, j), lay.objectSize)
    {
      assert SlabOk(lay, nodes, s, slabs[s], chains[s]);
      ObjectsAligned(lay, s, i);
      SlotsApart(lay, s, i, i);
      assert s != t ==> Apart(lay, s, t);
      if (s, i) != (t, j) { ObjectsDisjoint(lay, s, i, t, j); }
    }

    method SpliceSlab(slab: Addr)
      requires slab in slabs && slabs[slab].prev in slabs && slabs[slab].prev != slab
      requires slabs[slab].next != NULL ==>
        slabs[slab].next in slabs && slabs[slab].next != slab && slabs[slab].next != slabs[slab].prev
      modifies this`slabs
      ensures slabs == Splice(old(slabs), slab)
    {
      var originalPrev := slabs[slab].prev;
      var originalNext := slabs[slab].next;
      slabs := slabs[slab := slabs[slab].(prev := NULL, next := NULL)];
      if originalNext != NULL {
        slabs := slabs[originalNext := slabs[originalNext].(prev := originalPrev)];
      }
      slabs := slabs[originalPrev := slabs[originalPrev].(next := originalNext)];
    }

    method PrependSlab(sentinel: Addr, slab: Addr)
      requires sentinel in slabs && slab in slabs && slab != sentinel
      requires slabs[sentinel].next != NULL ==>
        slabs[sentinel].next in slabs && slabs[sentinel].next != slab && slabs[sentinel].next != sentinel
      modifies this`slabs
      ensures slabs == Prepend(old(slabs), sentinel, slab)
    {
      var first := slabs[sentinel].next;
      if first != NULL {
        slabs := slabs[first := slabs[first].(prev := slab)];
      }
      slabs := slabs[slab := slabs[slab].(prev := sentinel, next := slabs[sentinel].next)];
      slabs := slabs[sentinel := slabs[sentinel].(next := slab)];
    }

    /** Take the first free block of a slab. */
    method PopFront(slab: Addr) returns (node: Addr)
      requires Inv({}) && slab in chains && chains[slab] != []
      modifies this`slabs, this`chains
      ensures Inv({slab}) && chains == old(chains)[slab := old(chains)[slab][1..]]
      ensures node == lay.NodeAt(slab, old(chains)[slab][0])
      ensures slabs == old(slabs)[slab := slabs[slab]] && slabs[slab].prev == old(slabs)[slab].prev
      ensures slabs[slab].next == old(slabs)[slab].next
    {
      ghost var c := chains[slab];
      assert SlabOk(lay, nodes, slab, slabs[slab], c);
      PopOk(lay, nodes, slab, slabs[slab], c);
      node := slabs[slab].freeList;
      var head := nodes[node];
      if head.nextIndex == INVALID_INDEX {
        slabs := slabs[slab := slabs[slab].(freeList := NULL)];
      } else {
        slabs := slabs[slab := slabs[slab].(freeList := lay.OffsetFrom(node, head.nextIndex - head.index))];
      }
      slabs := slabs[slab := slabs[slab].(blocksInUse := slabs[slab].blocksInUse + 1)];
      chains := chains[slab := c[1..]];
      FieldsKeepLists(old(slabs), slabs, available, full, recycled, chains.Keys, slab);
      PopKeepsBlocks(lay, old(slabs), slabs, nodes, old(chains), chains, slab);
    }

    /** Put a block in front of its slab's chain. */
    method PushFront(slab: Addr, node: Addr, ghost i: nat)
      requires Inv({}) && slab in chains && i < lay.blocksPerSlab && i !in chains[slab] && node == lay.NodeAt(slab, i)
      modifies this`slabs, this`nodes, this`chains
      ensures Inv({slab}) && chains == old(chains)[slab := [i] + old(chains)[slab]]
      ensures slabs == old(slabs)[slab := slabs[slab]] && slabs[slab].prev == old(slabs)[slab].prev
      ensures slabs[slab].next == old(slabs)[slab].next
    {
      ghost var c := chains[slab];
      assert SlabOk(lay, nodes, slab, slabs[slab], c);
      PushOk(lay, nodes, slab, slabs[slab], c, i);
      var head := slabs[slab].freeList;
      if head == NULL {
        nodes := nodes[node := nodes[node].(nextIndex := INVALID_INDEX)];
      } else {
        nodes := nodes[node := nodes[node].(nextIndex := nodes[head].index)];
      }
      slabs := slabs[slab := slabs[slab].(freeList := node)];
      slabs := slabs[slab := slabs[slab].(blocksInUse := slabs[slab].blocksInUse - 1)];
      chains := chains[slab := [i] + c];
      FieldsKeepLists(old(slabs), slabs, available, full, recycled, chains.Keys, slab);
      PushKeepsBlocks(lay, old(slabs), slabs, old(nodes), nodes, old(chains), chains, slab, i);
    }

    /** Move a slab that has just filled up to the full list. */
    method AvailableToFull(slab: Addr)
      requires Inv({slab}) && available != [] && available[0] == slab && chains[slab] == []
      modifies this`slabs, this`available, this`full
      ensures Inv({}) && available == old(available)[1..] && full == [slab] + old(full)
    {
      ghost var s := slabs;
      MoveOk(s, AVAILABLE, available, FULL, full, RECYCLED, recycled, 0);
      SpliceSlab(slab);
      PrependSlab(FULL, slab);
      available := Without(available, 0);
      full := [slab] + full;
      RelinkKeepsBlocks(lay, s, slabs, nodes, chains);
    }

    /** Move a full slab that has just got a free block to the recycled list. */
    method FullToRecycled(slab: Addr, ghost k: nat)
      requires Inv({slab}) && k < |full| && full[k] == slab && chains[slab] != []
      modifies this`slabs, this`full, this`recycled
      ensures Inv({}) && full == Without(old(full), k) && recycled == [slab] + old(recycled)
    {
      ghost var s := slabs;
      MoveOk(s, FULL, full, RECYCLED, recycled, AVAILABLE, available, k);
      SpliceSlab(slab);
      PrependSlab(RECYCLED, slab);
      RelinkKeepsBlocks(lay, s, slabs, nodes, chains);
      full := Without(full, k);
      recycled := [slab] + recycled;
    }

    /** Make some slab available: the recycled ones if there are any, else one in the memory at base. */
    method GetNewSlab(base: Addr)
      requires Inv({}) && available == [] && (recycled == [] ==> FreshRegion(lay, base, chains.Keys))
      modifies this`slabs, this`nodes, this`available, this`recycled, this`chains
      ensures Inv({}) && available != []
      ensures old(recycled) != [] ==> chains == old(chains) && available == old(recycled) && recycled == []
      ensures old(recycled) == [] ==>
        var s := Align(base, lay.allocationAlignment);
        && s !in old(chains) && chains == old(chains)[s := Indices(lay.blocksPerSlab)]
        && available == [s] && recycled == []
    {
      HeadOfList(slabs, RECYCLED, recycled);
      if slabs[RECYCLED].next != NULL {
        SwapRecycled();
      } else {
        CreateSlab(base);
      }
    }

    method SwapRecycled()
      requires Inv({}) && available == [] && recycled != []
      modifies this`slabs, this`available, this`recycled
      ensures Inv({}) && available == old(recycled) && recycled == []
    {
      ghost var s := slabs;
      SwapOk(slabs, AVAILABLE, RECYCLED, recycled);
      var first, rest := slabs[RECYCLED].next, slabs[AVAILABLE].next;
      slabs := slabs[AVAILABLE := slabs[AVAILABLE].(next := first)][RECYCLED := slabs[RECYCLED].(next := rest)];
      // Only the next pointers were swapped: the first slab still points back at the other sentinel.
      slabs := slabs[first := slabs[first].(prev := AVAILABLE)];
      ListFrame(s, slabs, FULL, full);
      available, recycled := recycled, [];
      RelinkKeepsBlocks(lay, s, slabs, nodes, chains);
    }

    method CreateSlab(base: Addr)
      requires Inv({}) && available == [] && FreshRegion(lay, base, chains.Keys)
      modifies this`slabs, this`nodes, this`available, this`chains
      ensures Inv({})
      ensures var s := Align(base, lay.allocationAlignment);
        s !in old(chains) && chains == old(chains)[s := Indices(lay.blocksPerSlab)] && available == [s]
    {
      ghost var s := slabs;
      var alignedPtr := Align(base, lay.allocationAlignment);
      RegionInside(lay, base, chains.Keys);
      var dataStart := alignedPtr + lay.slabBlocksOffset;
      var node := dataStart + lay.indexLinkNodeOffset;
      InitialiseNodes(alignedPtr, node);
      slabs := slabs[alignedPtr := Slab(node, NULL, NULL, 0)];
      PrependNew(s, slabs, full, recycled, chains.Keys, alignedPtr);
      PrependSlab(AVAILABLE, alignedPtr);
      available := [alignedPtr] + available;
      chains := chains[alignedPtr := Indices(lay.blocksPerSlab)];
      NewKeepsBlocks(lay, s, slabs, old(nodes), nodes, old(chains), chains, alignedPtr);
    }

    /** Write the index of each block of a new slab and chain them all. */
    method InitialiseNodes(slab: Addr, node: Addr)
      requires lay.Valid() && node == lay.NodeAt(slab, 0)
      modifies this`nodes
      ensures NewNodes(lay, old(nodes), nodes, slab)
    {
      var i := 0;
      while i < lay.blocksPerSlab
        invariant i <= lay.blocksPerSlab
        invariant forall j :: 0 <= j < i ==>
          lay.NodeAt(slab, j) in nodes && nodes[lay.NodeAt(slab, j)] == IndexLinkNode(j, j + 1)
        invariant old(nodes).Keys <= nodes.Keys
        invariant forall p :: p in old(nodes) && (forall j :: 0 <= j < i ==> p != lay.NodeAt(slab, j)) ==>
          nodes[p] == old(nodes)[p]
      {
        OffsetFromMoves(lay, slab, 0, i);
        forall j | 0 <= j < i ensures lay.NodeAt(slab, j) != lay.NodeAt(slab, i) {
          if lay.NodeAt(slab, j) == lay.NodeAt(slab, i) { NodesDistinct(lay, slab, j, slab, i); }
        }
        nodes := nodes[lay.OffsetFrom(node, i) := IndexLinkNode(i, i + 1)];
        i := i + 1;
      }
      var last := lay.blocksPerSlab - 1;
      OffsetFromMoves(lay, slab, 0, last);
      forall j | 0 <= j < last ensures lay.NodeAt(slab, j) != lay.NodeAt(slab, last) {
        if lay.NodeAt(slab, j) == lay.NodeAt(slab, last) { NodesDistinct(lay, slab, j, slab, last); }
      }
      var lastNode := lay.OffsetFrom(node, last);
      nodes := nodes[lastNode := nodes[lastNode].(nextIndex := INVALID_INDEX)];
    }

    /** The slabs that are taken from next: the available ones, else those recycled, else a new one. */
    ghost function Source(base: Addr): (r: seq<Addr>)
      reads this
      requires lay.Valid()
      ensures r != []
    {
      if available != [] then available else if recycled != [] then recycled else [Align(base, lay.allocationAlignment)]
    }

    /** The first free block of a slab. */
    ghost function Head(slab: Addr): (i: nat)
      reads this
    {
      if slab in chains && chains[slab] != [] then chains[slab][0] else 0
    }

    /** Take a block from the first available slab, and move the slab on if that was its last. */
    method TakeBlock() returns (node: Addr, ghost slab: Addr, ghost i: nat)
      requires Inv({}) && available != []
      modifies this`slabs, this`available, this`full, this`chains
      ensures Inv({}) && slab in old(chains) && old(chains)[slab] != [] && i == old(chains)[slab][0] < lay.blocksPerSlab
      ensures Distinct(old(chains)[slab]) && chains == old(chains)[slab := old(chains)[slab][1..]]
      ensures node == lay.NodeAt(slab, i) && slab % lay.allocationAlignment == 0
      ensures slab == old(available)[0] && MovedOn(chains, slab, old(available), available, old(full), full)
    {
      HeadOfList(slabs, AVAILABLE, available);
      var current := slabs[AVAILABLE].next;
      slab := current;
      assert slab == available[0] && slab in available;
      assert SlabOk(lay, nodes, slab, slabs[slab], chains[slab]);
      i := chains[slab][0];
      assert ChainLink(lay, nodes, slab, chains[slab], 0);
      node := PopFront(current);
      assert SlabOk(lay, nodes, slab, slabs[slab], chains[slab]);
      // Full slabs get a list of their own so that allocation never has to skip them.
      if slabs[current].blocksInUse == lay.blocksPerSlab {
        AvailableToFull(current);
      }
    }

    method Allocate(base: Addr) returns (ptr: Addr, ghost slab: Addr, ghost i: nat)
      requires Valid() && (available == [] && recycled == [] ==> FreshRegion(lay, base, chains.Keys))
      modifies this
      ensures Valid() && ptr == lay.ObjectAt(slab, i) && slab in chains && i < lay.blocksPerSlab
      ensures (slab, i) !in old(Used(chains, lay.blocksPerSlab))
      ensures Used(chains, lay.blocksPerSlab) == old(Used(chains, lay.blocksPerSlab)) + {(slab, i)}
      ensures peak == Max(old(peak), |Used(chains, lay.blocksPerSlab)|)
      ensures ptr % lay.objectAlignment == 0
      ensures slab == old(Source(base))[0] && i == if slab in old(chains) then old(Head(slab)) else 0
      ensures chains[slab] == if slab in old(chains) then old(chains)[slab][1..] else Indices(lay.blocksPerSlab)[1..]
      ensures forall s :: s in old(chains) && s != slab ==> s in chains && chains[s] == old(chains)[s]
      ensures MovedOn(chains, slab, old(Source(base)), available, old(full), full)
      ensures recycled == if old(available) == [] then [] else old(recycled)
    {
      hide Lists, Blocks;
      ghost var n, c0, c1 := lay.blocksPerSlab, chains, chains;
      ghost var grew := available == [] && recycled == [];
      var node;
      c1, node, slab, i := AllocateNode(base);
      ptr := node - lay.indexLinkNodeOffset;
      ObjectsAligned(lay, slab, i);
      AllocateFacts(c0, c1, chains, peak, slab, n, Align(base, lay.allocationAlignment), grew);
      peak := Max(peak, |Used(chains, n)|);
    }

    method AllocateNode(base: Addr) returns (ghost c: map<Addr, seq<nat>>, node: Addr, ghost slab: Addr, ghost i: nat)
      requires Inv({}) && (available == [] && recycled == [] ==> FreshRegion(lay, base, chains.Keys))
      modifies this`slabs, this`nodes, this`available, this`full, this`recycled, this`chains
      ensures Inv({})
      ensures old(available == [] && recycled == []) ==>
        && (forall s :: s in old(chains) ==> old(chains)[s] == [])
        && Align(base, lay.allocationAlignment) !in old(chains)
        && c == old(chains)[Align(base, lay.allocationAlignment) := Indices(lay.blocksPerSlab)]
      ensures !old(available == [] && recycled == []) ==> c == old(chains)
      ensures slab in c && c[slab] != [] && Distinct(c[slab]) && i == c[slab][0] < lay.blocksPerSlab
      ensures chains == c[slab := c[slab][1..]] && slab == old(Source(base))[0]
      ensures i == if slab in old(chains) then old(Head(slab)) else 0
      ensures chains[slab] == if slab in old(chains) then old(chains)[slab][1..] else Indices(lay.blocksPerSlab)[1..]
      ensures forall s :: s in old(chains) && s != slab ==> s in chains && chains[s] == old(chains)[s]
      ensures MovedOn(chains, slab, old(Source(base)), available, old(full), full)
      ensures recycled == if old(available) == [] then [] else old(recycled)
      ensures node == lay.NodeAt(slab, i) && slab % lay.allocationAlignment == 0
    {
      HeadOfList(slabs, AVAILABLE, available);
      if slabs[AVAILABLE].next == NULL {
        GetNewSlab(base);
      }
      c := chains;
      node, slab, i := TakeBlock();
    }

    /** Give a block back to its slab, and recycle the slab if it was full. */
    method ReturnBlock(slab: Addr, node: Addr, ghost i: nat)
      requires Inv({}) && slab in chains && i < lay.blocksPerSlab && i !in chains[slab] && node == lay.NodeAt(slab, i)
      modifies this`slabs, this`nodes, this`full, this`recycled, this`chains
      ensures Inv({}) && chains == old(chains)[slab := [i] + old(chains)[slab]]
      ensures MovedBack(old(chains), slab, old(full), full, old(recycled), recycled)
    {
      assert SlabOk(lay, nodes, slab, slabs[slab], chains[slab]);
      var slabWasFull := slabs[slab].blocksInUse == lay.blocksPerSlab;
      PushFront(slab, node, i);
      if slabWasFull {
        ghost var k :| 0 <= k < |full| && full[k] == slab;
        FullToRecycled(slab, k);
      }
    }

    method Deallocate(ptr: Addr, ghost owner: Addr, ghost i: nat)
      requires Valid() && (owner, i) in Used(chains, lay.blocksPerSlab) && ptr == lay.ObjectAt(owner, i)
      modifies this
      ensures Valid() && peak == old(peak) && chains.Keys == old(chains.Keys)
      ensures Used(chains, lay.blocksPerSlab) == old(Used(chains, lay.blocksPerSlab)) - {(owner, i)}
      ensures chains == old(chains)[owner := [i] + old(chains)[owner]] && available == old(available)
      ensures MovedBack(old(chains), owner, old(full), full, old(recycled), recycled)
    {
      ghost var before := chains;
      var slab, node := FindOwner(ptr, owner, i);
      ReturnBlock(slab, node, i);
      UsedPush(before, chains, slab, i, lay.blocksPerSlab);
    }

    /** The address arithmetic of Deallocate. */
    method FindOwner(ptr: Addr, ghost owner: Addr, ghost i: nat) returns (slab: Addr, node: Addr)
      requires Inv({}) && owner in chains && i < lay.blocksPerSlab && ptr == lay.ObjectAt(owner, i)
      ensures slab == owner && node == lay.NodeAt(owner, i)
    {
      node := ptr + lay.indexLinkNodeOffset;
      OwnerRecovered(lay, slabs, nodes, chains, owner, i);
      var firstAllocation := lay.OffsetFrom(node, 0 - nodes[node].index) - lay.indexLinkNodeOffset;
      slab := firstAllocation - lay.slabBlocksOffset;
    }
  }

  /** A live object's address and the index stored next to it lead back to the slab that issued it. */
  lemma OwnerRecovered(lay: Layout, slabs: SlabStore, nodes: NodeStore, chains: map<Addr, seq<nat>>,
                       owner: Addr, i: nat)
    requires lay.Valid() && Blocks(lay, slabs, nodes, chains) && owner in chains && i < lay.blocksPerSlab
    ensures lay.NodeAt(owner, i) in nodes && nodes[lay.NodeAt(owner, i)].index == i
    ensures var node := lay.NodeAt(owner, i);
      lay.OffsetFrom(node, 0 - nodes[node].index) - lay.indexLinkNodeOffset - lay.slabBlocksOffset == owner
  {
    assert SlabOk(lay, nodes, owner, slabs[owner], chains[owner]);
    assert IndexOk(lay, nodes, owner, i);
    OffsetFromMoves(lay, owner, i, 0);
  }

  function Max(a: nat, b: nat): (r: nat) {
    if a < b then b else a
  }

  lemma UsedPop(chains: map<Addr, seq<nat>>, chains': map<Addr, seq<nat>>, s: Addr, n: nat)
    requires s in chains && chains[s] != [] && chains' == chains[s := chains[s][1..]]
    requires Distinct(chains[s]) && chains[s][0] < n
    ensures (s, chains[s][0]) !in Used(chains, n) && Used(chains', n) == Used(chains, n) + {(s, chains[s][0])}
  {
    var c := chains[s];
    assert c == [c[0]] + c[1..] && c[0] !in c[1..];
    forall p, i ensures (p, i) in Used(chains', n) <==> (p, i) in Used(chains, n) + {(s, c[0])} { }
  }

  lemma UsedPush(chains: map<Addr, seq<nat>>, chains': map<Addr, seq<nat>>, s: Addr, i: nat, n: nat)
    requires s in chains && i < n && i !in chains[s] && chains' == chains[s := [i] + chains[s]]
    ensures Used(chains', n) == Used(chains, n) - {(s, i)} && |Used(chains', n)| <= |Used(chains, n)|
  {
    forall p, j ensures (p, j) in Used(chains', n) <==> (p, j) in Used(chains, n) - {(s, i)} { }
    SubsetSize(Used(chains', n), Used(chains, n));
  }

  lemma UsedNew(chains: map<Addr, seq<nat>>, chains': map<Addr, seq<nat>>, s: Addr, n: nat)
    requires s !in chains && chains' == chains[s := Indices(n)]
    ensures Used(chains', n) == Used(chains, n) && |chains'| == |chains| + 1
  {
    forall i | 0 <= i < n ensures i in Indices(n) { assert Indices(n)[i] == i; }
    forall p, j ensures (p, j) in Used(chains', n) <==> (p, j) in Used(chains, n) { }
    assert chains'.Keys == chains.Keys + {s};
  }

  /** A slab is created only when all others are full, so slabs keep up with the peak exactly. */
  lemma AllocateFacts(c0: map<Addr, seq<nat>>, c1: map<Addr, seq<nat>>, c2: map<Addr, seq<nat>>,
                      peak: nat, s: Addr, n: nat, created: Addr, grew: bool)
    requires IsCeil(|c0|, peak, n) && |Used(c0, n)| <= peak && n > 0
    requires !grew ==> c1 == c0
    requires grew ==> (forall p :: p in c0 ==> c0[p] == []) && created !in c0 && c1 == c0[created := Indices(n)]
    requires s in c1 && c1[s] != [] && Distinct(c1[s]) && c1[s][0] < n && c2 == c1[s := c1[s][1..]]
    ensures (s, c1[s][0]) !in Used(c0, n) && Used(c2, n) == Used(c0, n) + {(s, c1[s][0])}
    ensures IsCeil(|c2|, Max(peak, |Used(c2, n)|), n)
  {
    if grew { UsedNew(c0, c1, created, n); }
    UsedPop(c1, c2, s, n);
    SameSize(c1, c2);
    UsedBound(c0, n);
    UsedBound(c2, n);
    CeilStep(|c0|, |c2|, |Used(c0, n)|, peak, n, grew);
  }

  lemma SameSize(c1: map<Addr, seq<nat>>, c2: map<Addr, seq<nat>>)
    requires c1.Keys == c2.Keys
    ensures |c1| == |c2|
  {
    assert |c1| == |c1.Keys| && |c2| == |c2.Keys|;
  }

  lemma CeilStep(q: nat, q': nat, used: nat, peak: nat, n: nat, grew: bool)
    requires IsCeil(q, peak, n) && used <= peak && n > 0
    requires if grew then q' == q + 1 && used == Times(n, q) else q' == q && used + 1 <= Times(n, q)
    ensures IsCeil(q', Max(peak, used + 1), n)
  {
  }

  function Indices(n: nat): (c: seq<nat>)
    ensures |c| == n && forall i :: 0 <= i < n ==> c[i] == i
  {
    seq(n, i => i)
  }

  /** The memory returned by `new char[]` overlaps no slab and no sentinel. */
  ghost predicate FreshRegion(lay: Layout, base: Addr, all: set<Addr>)
    requires lay.Valid()
  {
    && base > RECYCLED
    && forall s :: s in all ==> base + lay.TotalAllocationSize() <= s || s + lay.Extent() <= base
  }

  /** Aligning up stays inside the padded allocation. */
  lemma RegionInside(lay: Layout, base: Addr, all: set<Addr>)
    requires lay.Valid() && FreshRegion(lay, base, all)
    ensures var s := Align(base, lay.allocationAlignment);
      s !in all && base <= s && s + lay.Extent() <= base + lay.TotalAllocationSize()
        && forall t :: t in all ==> Apart(lay, s, t)
  {
    SlotsApart(lay, 0, 0, 0);
  }

  lemma HeadOfList(s: SlabStore, sentinel: Addr, xs: seq<Addr>)
    requires ListOk(s, sentinel, xs)
    ensures s[sentinel].next == NULL <==> xs == []
  {
    if xs != [] { assert LinkOk(s, sentinel, xs, 0); }
  }

  /** A new slab becomes the only available one. */
  lemma PrependNew(s: SlabStore, t: SlabStore, full: seq<Addr>, recycled: seq<Addr>, all: set<Addr>,
                   slab: Addr)
    requires Lists(s, [], full, recycled, all) && slab !in s && slab != NULL && slab in t && t == s[slab := t[slab]]
    ensures AVAILABLE in t && t[AVAILABLE].next == NULL && slab != AVAILABLE
    ensures var u := Prepend(t, AVAILABLE, slab);
      && Lists(u, [slab], full, recycled, all + {slab})
      && u[slab] == t[slab].(prev := AVAILABLE, next := NULL) && forall p :: p in all ==> u[p] == s[p]
  {
    ListFrame(s, t, AVAILABLE, []);
    PrependOk(t, AVAILABLE, [], slab);
    var u := Prepend(t, AVAILABLE, slab);
    assert [slab] + [] == [slab];
    ListFrame(s, u, FULL, full);
    ListFrame(s, u, RECYCLED, recycled);
  }

  ghost predicate NewNodes(lay: Layout, nodes: NodeStore, nodes': NodeStore, slab: Addr)
    requires lay.Valid()
  {
    && (forall j :: 0 <= j < lay.blocksPerSlab ==>
          && lay.NodeAt(slab, j) in nodes'
          && nodes'[lay.NodeAt(slab, j)] ==
            IndexLinkNode(j, if j + 1 < lay.blocksPerSlab then j + 1 else INVALID_INDEX))
    && nodes.Keys <= nodes'.Keys
    && (forall p :: p in nodes && (forall j :: 0 <= j < lay.blocksPerSlab ==> p != lay.NodeAt(slab, j)) ==>
          nodes'[p] == nodes[p])
  }

  lemma NewKeepsBlocks(lay: Layout, s: SlabStore, t: SlabStore, nodes: NodeStore, nodes': NodeStore,
                       chains: map<Addr, seq<nat>>, chains': map<Addr, seq<nat>>, slab: Addr)
    requires lay.Valid() && Blocks(lay, s, nodes, chains) && slab !in chains && slab in t && chains.Keys <= t.Keys
    requires forall p :: p in chains ==> t[p] == s[p].(prev := t[p].prev, next := t[p].next) && Apart(lay, slab, p)
    requires t[slab].freeList == lay.NodeAt(slab, 0) && t[slab].blocksInUse == 0 && slab % lay.allocationAlignment == 0
    requires NewNodes(lay, nodes, nodes', slab) && chains' == chains[slab := Indices(lay.blocksPerSlab)]
    ensures Blocks(lay, t, nodes', chains')
  {
    forall p | p in chains' ensures SlabOk(lay, nodes', p, t[p], chains'[p]) {
      if p != slab {
        assert SlabOk(lay, nodes, p, s[p], chains[p]);
        OldSlabKept(lay, nodes, nodes', p, s[p], chains[p], slab);
      } else {
        NewSlabOk(lay, nodes, nodes', t[p], slab);
      }
    }
  }

  lemma OldSlabKept(lay: Layout, nodes: NodeStore, nodes': NodeStore, p: Addr, b: Slab, c: seq<nat>,
                    slab: Addr)
    requires lay.Valid() && SlabOk(lay, nodes, p, b, c) && NewNodes(lay, nodes, nodes', slab) && p != slab
    requires Apart(lay, slab, p)
    ensures SlabOk(lay, nodes', p, b, c)
  {
    forall i | 0 <= i < lay.blocksPerSlab && lay.NodeAt(p, i) in nodes
      ensures lay.NodeAt(p, i) in nodes' && nodes'[lay.NodeAt(p, i)] == nodes[lay.NodeAt(p, i)]
    {
      forall j | 0 <= j < lay.blocksPerSlab ensures lay.NodeAt(p, i) != lay.NodeAt(slab, j) {
        if lay.NodeAt(p, i) == lay.NodeAt(slab, j) { NodesDistinct(lay, p, i, slab, j); }
      }
    }
    SlabFrame(lay, nodes, nodes', p, b, c);
  }

  lemma NewSlabOk(lay: Layout, nodes: NodeStore, nodes': NodeStore, b: Slab, slab: Addr)
    requires lay.Valid() && NewNodes(lay, nodes, nodes', slab)
    requires b.freeList == lay.NodeAt(slab, 0) && b.blocksInUse == 0 && slab % lay.allocationAlignment == 0
    ensures SlabOk(lay, nodes', slab, b, Indices(lay.blocksPerSlab))
  {
    var c := Indices(lay.blocksPerSlab);
    forall i | 0 <= i < |c| ensures ChainLink(lay, nodes', slab, c, i) { assert c[i] == i; }
    forall i | 0 <= i < lay.blocksPerSlab ensures IndexOk(lay, nodes', slab, i) { }
  }

  lemma MoveOk(s: SlabStore, a: Addr, xs: seq<Addr>, b: Addr, ys: seq<Addr>, c: Addr, zs: seq<Addr>,
               k: nat)
    requires ListOk(s, a, xs) && ListOk(s, b, ys) && ListOk(s, c, zs) && k < |xs| && a != b && b != c && c != a
    requires a !in ys && a !in zs && b !in xs && b !in zs && c !in xs && c !in ys
    requires forall p :: p in xs ==> p !in ys && p !in zs
    requires forall p :: p in ys ==> p !in zs
    ensures var x := xs[k];
      && x in s && s[x].prev in s && s[x].prev != x
      && (s[x].next != NULL ==> s[x].next in s && s[x].next != x && s[x].next != s[x].prev)
      && var t := Splice(s, x);
      && b in t && x in t && x != b
      && (t[b].next != NULL ==> t[b].next in t && t[b].next != x && t[b].next != b)
      && var u := Prepend(t, b, x);
      && ListOk(u, a, Without(xs, k)) && ListOk(u, b, [x] + ys) && ListOk(u, c, zs) && Relinked(s, u)
    ensures forall p :: p in Without(xs, k) <==> p in xs && p != xs[k]
  {
    var x := xs[k];
    SpliceOk(s, a, xs, k);
    var t := Splice(s, x);
    ListFrame(s, t, b, ys);
    ListFrame(s, t, c, zs);
    assert x in xs;
    MemberOk(s, a, xs, x);
    PrependOk(t, b, ys, x);
    var u := Prepend(t, b, x);
    forall p ensures p in Without(xs, k) <==> p in xs && p != xs[k] {
      WithoutMembers(xs, k, p);
    }
    ListFrame(t, u, a, Without(xs, k));
    ListFrame(t, u, c, zs);
  }

  lemma RelinkKeepsBlocks(lay: Layout, s: SlabStore, t: SlabStore, nodes: NodeStore,
                          chains: map<Addr, seq<nat>>)
    requires lay.Valid() && Blocks(lay, s, nodes, chains) && Relinked(s, t)
    ensures Blocks(lay, t, nodes, chains)
  {
    forall p | p in chains ensures SlabOk(lay, nodes, p, t[p], chains[p]) {
      assert SlabOk(lay, nodes, p, s[p], chains[p]);
    }
  }

  lemma PushKeepsBlocks(lay: Layout, s: SlabStore, t: SlabStore, nodes: NodeStore, nodes': NodeStore,
                        chains: map<Addr, seq<nat>>, chains': map<Addr, seq<nat>>, slab: Addr,
                        i: nat)
    requires lay.Valid() && Blocks(lay, s, nodes, chains) && slab in chains && slab in t && slab in chains'
    requires i < lay.blocksPerSlab
    requires t == s[slab := t[slab]] && chains' == chains[slab := chains'[slab]]
    requires lay.NodeAt(slab, i) in nodes' && nodes' == nodes[lay.NodeAt(slab, i) := nodes'[lay.NodeAt(slab, i)]]
    requires SlabOk(lay, nodes', slab, t[slab], chains'[slab])
    ensures Blocks(lay, t, nodes', chains')
  {
    forall p | p in chains' ensures SlabOk(lay, nodes', p, t[p], chains'[p]) {
      if p != slab {
        assert SlabOk(lay, nodes, p, s[p], chains[p]);
        forall j | 0 <= j < lay.blocksPerSlab ensures lay.NodeAt(p, j) != lay.NodeAt(slab, i) {
          if lay.NodeAt(p, j) == lay.NodeAt(slab, i) { NodesDistinct(lay, p, j, slab, i); }
        }
        SlabFrame(lay, nodes, nodes', p, s[p], chains[p]);
      }
    }
  }

  lemma PopKeepsBlocks(lay: Layout, s: SlabStore, t: SlabStore, nodes: NodeStore,
                       chains: map<Addr, seq<nat>>, chains': map<Addr, seq<nat>>, slab: Addr)
    requires lay.Valid() && Blocks(lay, s, nodes, chains) && slab in chains && slab in t && slab in chains'
    requires t == s[slab := t[slab]] && chains' == chains[slab := chains'[slab]]
    requires SlabOk(lay, nodes, slab, t[slab], chains'[slab])
    ensures Blocks(lay, t, nodes, chains')
  {
    forall p | p in chains' ensures SlabOk(lay, nodes, p, t[p], chains'[p]) {
      if p != slab { assert SlabOk(lay, nodes, p, s[p], chains[p]); }
    }
  }
}
