/** The block tree of src/dawn_native/BuddyAllocator as a store of linked records, and what follows
    from its local link invariants: the leaves tile the range, eager merging leaves no avoidable
    failure, and the whole tree is determined by the live allocations.

    A pointer is a key of the store, `new` adds a fresh key and `delete` removes one, so following
    a dangling pointer is a missing key. The C++ union of free-list and split links is a datatype
    with two constructors, so reading the inactive member is a proof obligation too. */
module BuddyBlocks {
  import opened PowersOfTwo

  type Ptr = nat
  const NULL: Ptr := 0

  datatype BlockState = Free | Split | Allocated
  datatype Links = FreeLinks(pPrev: Ptr, pNext: Ptr) | SplitLink(pLeft: Ptr)
  datatype BuddyBlock = BuddyBlock(offset: nat, size: nat, pBuddy: Ptr, pParent: Ptr, state: BlockState, links: Links)
  type Store = map<Ptr, BuddyBlock>

  /** An allocation as its owner sees it. */
  datatype Block = Block(offset: nat, size: nat)

  predicate Placed(b: BuddyBlock, h: nat) {
    IsPow2(b.size) && Log2(b.size) <= h && b.offset % b.size == 0 && b.offset + b.size <= Pow2(h)
  }

  /** A split block has two children that are each other's buddy and halve it. */
  predicate ChildrenOk(s: Store, root: Ptr, p: Ptr)
    requires p in s
  {
    && s[p].links.SplitLink?
    && var l := s[p].links.pLeft;
    && l in s && l != root
    && var r := s[l].pBuddy;
    && r in s && r != root && s[r].pBuddy == l
    && s[l].pParent == p && s[r].pParent == p
    && 2 * s[l].size == s[p].size && s[r].size == s[l].size
    && s[l].offset == s[p].offset && s[r].offset == s[p].offset + s[l].size
  }

  /** Every block but the root is a child of a split block. */
  predicate ParentOk(s: Store, p: Ptr)
    requires p in s
  {
    && var q := s[p].pParent;
    && q in s && s[q].state.Split? && s[q].links.SplitLink?
    && var l := s[q].links.pLeft;
    && l in s && (p == l || p == s[l].pBuddy)
  }

  predicate NodeOk(s: Store, root: Ptr, h: nat, p: Ptr)
    requires p in s
  {
    && p != NULL
    && Placed(s[p], h)
    && (s[p].state.Split? ==> ChildrenOk(s, root, p))
    && (p == root ==> s[p].offset == 0 && s[p].size == Pow2(h))
    && (p != root ==> ParentOk(s, p))
  }

  /** The store is a full binary tree over [0, 2^h). */
  ghost predicate Tree(s: Store, root: Ptr, h: nat) {
    root in s && forall p {:trigger NodeOk(s, root, h, p)} :: p in s ==> NodeOk(s, root, h, p)
  }

  /** No two buddies are both free, except possibly the pair of c. */
  ghost predicate MergedExcept(s: Store, root: Ptr, c: Ptr) {
    forall p {:trigger Separated(s, root, c, p)} :: p in s ==> Separated(s, root, c, p)
  }

  ghost predicate Separated(s: Store, root: Ptr, c: Ptr, p: Ptr)
    requires p in s
  {
    p != root && s[p].state.Free? && p != c && s[p].pBuddy != c ==>
      s[p].pBuddy in s && !s[s[p].pBuddy].state.Free?
  }

  ghost predicate Merged(s: Store, root: Ptr) {
    MergedExcept(s, root, NULL)
  }

  function BlockOf(b: BuddyBlock): (r: Block) {
    Block(b.offset, b.size)
  }

  function Live(s: Store): (r: set<Block>) {
    set p | p in s && s[p].state.Allocated? :: BlockOf(s[p])
  }

  predicate Inside(s: Store, q: Ptr, p: Ptr)
    requires p in s && q in s
  {
    Within(s[q].offset, s[q].size, s[p].offset, s[p].size)
  }

  lemma ChildFacts(s: Store, root: Ptr, h: nat, p: Ptr) returns (l: Ptr, r: Ptr)
    requires Tree(s, root, h) && p in s && s[p].state.Split?
    ensures ChildrenOk(s, root, p) && l == s[p].links.pLeft && r == s[l].pBuddy
    ensures l in s && r in s && l != r && Inside(s, l, p) && Inside(s, r, p)
    ensures s[p].size > 1 && Log2(s[l].size) == Log2(s[p].size) - 1 == Log2(s[r].size)
  {
    assert NodeOk(s, root, h, p);
    l := s[p].links.pLeft;
    r := s[l].pBuddy;
    DoubleOfPow2(s[l].size, s[p].size);
  }

  lemma ParentFacts(s: Store, root: Ptr, h: nat, p: Ptr) returns (q: Ptr)
    requires Tree(s, root, h) && p in s && p != root
    ensures q == s[p].pParent && q in s && s[q].state.Split? && ChildrenOk(s, root, q)
    ensures 0 < s[p].size && s[q].size == 2 * s[p].size && Inside(s, p, q)
    ensures s[p].pBuddy in s && s[s[p].pBuddy].pBuddy == p && s[p].pBuddy != p && s[p].pBuddy != root
    ensures p == s[q].links.pLeft || p == s[s[q].links.pLeft].pBuddy
    ensures Log2(s[q].size) == Log2(s[p].size) + 1 && s[q].size <= Pow2(h)
  {
    assert NodeOk(s, root, h, p);
    q := s[p].pParent;
    assert NodeOk(s, root, h, q);
    DoubleOfPow2(s[p].size, s[q].size);
  }

  /** A block's place names it: no two blocks have the same offset and size. */
  lemma {:induction false} UniqueBlock(s: Store, root: Ptr, h: nat, p: Ptr, q: Ptr)
    requires Tree(s, root, h) && p in s && q in s
    requires s[p].offset == s[q].offset && s[p].size == s[q].size
    ensures p == q
    decreases Pow2(h) - s[p].size
  {
    assert NodeOk(s, root, h, p) && NodeOk(s, root, h, q);
    if p != q && p != root && q != root {
      var pp := ParentFacts(s, root, h, p);
      var qq := ParentFacts(s, root, h, q);
      assert NodeOk(s, root, h, pp) && NodeOk(s, root, h, qq);
      if s[pp].offset <= s[qq].offset {
        CloseMultiples(s[pp].offset, s[qq].offset, s[pp].size);
      } else {
        CloseMultiples(s[qq].offset, s[pp].offset, s[pp].size);
      }
      UniqueBlock(s, root, h, pp, qq);
    } else if p != q && p == root {
      var qq := ParentFacts(s, root, h, q);
    } else if p != q {
      var pp := ParentFacts(s, root, h, p);
    }
  }

  /** Two blocks of the tree are nested or disjoint. */
  lemma BlocksNested(s: Store, root: Ptr, h: nat, q: Ptr, p: Ptr)
    requires Tree(s, root, h) && p in s && q in s && s[q].size <= s[p].size
    ensures Inside(s, q, p) || !Overlap(s[q].offset, s[q].size, s[p].offset, s[p].size)
  {
    assert NodeOk(s, root, h, p) && NodeOk(s, root, h, q);
    Log2Monotone(s[q].size, s[p].size);
    Nested(s[q].offset, Log2(s[q].size), s[p].offset, Log2(s[p].size));
  }

  /** A block that strictly contains another is split. */
  lemma {:induction false} ContainerIsSplit(s: Store, root: Ptr, h: nat, q: Ptr, p: Ptr)
    requires Tree(s, root, h) && p in s && q in s && Inside(s, q, p) && p != q
    ensures s[p].state.Split? && s[q].size < s[p].size
    decreases s[p].size - s[q].size
  {
    assert NodeOk(s, root, h, p) && NodeOk(s, root, h, q);
    if s[q].size == s[p].size {
      UniqueBlock(s, root, h, p, q);
    } else if q != root {
      var r := ParentFacts(s, root, h, q);
      assert NodeOk(s, root, h, r);
      if r != p {
        SmallerPow2(s[q].size, s[p].size);
        BlocksNested(s, root, h, r, p);
        ContainerIsSplit(s, root, h, r, p);
      }
    }
  }

  /** Leaves are pairwise disjoint. */
  lemma LeavesDisjoint(s: Store, root: Ptr, h: nat, p: Ptr, q: Ptr)
    requires Tree(s, root, h) && p in s && q in s && p != q
    requires !s[p].state.Split? && !s[q].state.Split?
    ensures !Overlap(s[p].offset, s[p].size, s[q].offset, s[q].size)
  {
    if s[q].size <= s[p].size {
      BlocksNested(s, root, h, q, p);
      if Inside(s, q, p) { ContainerIsSplit(s, root, h, q, p); }
    } else {
      BlocksNested(s, root, h, p, q);
      if Inside(s, p, q) { ContainerIsSplit(s, root, h, p, q); }
    }
  }

  /** An interval no larger than either half of a split block lies in one of its halves. */
  lemma InOneHalf(s: Store, root: Ptr, h: nat, p: Ptr, o: nat, k: nat) returns (c: Ptr)
    requires Tree(s, root, h) && p in s && s[p].state.Split?
    requires o % Pow2(k) == 0 && Pow2(k) < s[p].size && Within(o, Pow2(k), s[p].offset, s[p].size)
    ensures c in s && s[c].pParent == p && c != root && 2 * s[c].size == s[p].size && Pow2(k) <= s[c].size
    ensures Within(o, Pow2(k), s[c].offset, s[c].size) && Inside(s, c, p)
  {
    var l, r := ChildFacts(s, root, h, p);
    assert NodeOk(s, root, h, l) && NodeOk(s, root, h, r) && NodeOk(s, root, h, p);
    Log2OfPow2(k);
    SmallerPow2(Pow2(k), s[p].size);
    Nested(o, k, s[l].offset, Log2(s[l].size));
    Nested(o, k, s[r].offset, Log2(s[r].size));
    c := if Within(o, Pow2(k), s[l].offset, s[l].size) then l else r;
  }

  lemma {:induction false} LeafAtFrom(s: Store, root: Ptr, h: nat, p: Ptr, x: nat) returns (q: Ptr)
    requires Tree(s, root, h) && p in s && s[p].offset <= x < s[p].offset + s[p].size
    ensures q in s && !s[q].state.Split? && s[q].offset <= x < s[q].offset + s[q].size
    decreases s[p].size
  {
    if s[p].state.Split? {
      var l, r := ChildFacts(s, root, h, p);
      q := LeafAtFrom(s, root, h, if x < s[r].offset then l else r, x);
    } else {
      q := p;
    }
  }

  ghost predicate LeafCovering(s: Store, p: Ptr, x: nat) {
    p in s && !s[p].state.Split? && s[p].offset <= x < s[p].offset + s[p].size
  }

  /** The leaves tile the range: every point lies in exactly one of them. */
  lemma LeavesTile(s: Store, root: Ptr, h: nat, x: nat) returns (leaf: Ptr)
    requires Tree(s, root, h) && x < Pow2(h)
    ensures LeafCovering(s, leaf, x) && forall p :: LeafCovering(s, p, x) ==> p == leaf
  {
    assert NodeOk(s, root, h, root);
    leaf := LeafAtFrom(s, root, h, root, x);
    forall p | LeafCovering(s, p, x) && p != leaf ensures false {
      LeavesDisjoint(s, root, h, p, leaf);
    }
  }

  /** Live allocations are inside the range, aligned to their size and pairwise disjoint. */
  lemma LiveDisjoint(s: Store, root: Ptr, h: nat, a: Block, b: Block)
    requires Tree(s, root, h) && a in Live(s) && b in Live(s)
    ensures IsPow2(a.size) && a.offset % a.size == 0 && a.offset + a.size <= Pow2(h)
    ensures a != b ==> !Overlap(a.offset, a.size, b.offset, b.size)
  {
    var p :| p in s && s[p].state.Allocated? && BlockOf(s[p]) == a;
    var q :| q in s && s[q].state.Allocated? && BlockOf(s[q]) == b;
    assert NodeOk(s, root, h, p);
    if p != q { LeavesDisjoint(s, root, h, p, q); }
  }

  /** With eager merging a block that is not free holds a live allocation. */
  lemma {:induction false} LiveInside(s: Store, root: Ptr, h: nat, p: Ptr) returns (q: Ptr)
    requires Tree(s, root, h) && Merged(s, root) && p in s && !s[p].state.Free?
    ensures q in s && s[q].state.Allocated? && Inside(s, q, p)
    decreases s[p].size
  {
    if s[p].state.Allocated? {
      q := p;
    } else {
      var l, r := ChildFacts(s, root, h, p);
      assert NodeOk(s, root, h, l) && NodeOk(s, root, h, r) && Separated(s, root, NULL, l);
      q := LiveInside(s, root, h, if s[l].state.Free? then r else l);
    }
  }

  /** The size-aligned interval [o, o + size) lies in the range and meets no live allocation. */
  ghost predicate Room(live: set<Block>, h: nat, o: nat, size: nat)
    requires size > 0
  {
    o % size == 0 && o + size <= Pow2(h) && Clear(live, o, size)
  }

  ghost predicate Clear(live: set<Block>, o: nat, size: nat) {
    forall b :: b in live ==> !Overlap(b.offset, b.size, o, size)
  }

  lemma RoomIsSmaller(s: Store, root: Ptr, h: nat, p: Ptr, o: nat, size: nat)
    requires Tree(s, root, h) && Merged(s, root) && p in s && !s[p].state.Free?
    requires Clear(Live(s), o, size) && 0 < size && Within(o, size, s[p].offset, s[p].size)
    ensures s[p].state.Split? && size < s[p].size
  {
    var a := LiveInside(s, root, h, p);
    assert NodeOk(s, root, h, a);
    assert BlockOf(s[a]) in Live(s) && (s[p].state.Allocated? ==> BlockOf(s[p]) in Live(s));
  }

  lemma {:induction false} FreeBlockAround(s: Store, root: Ptr, h: nat, p: Ptr, o: nat, k: nat) returns (q: Ptr)
    requires Tree(s, root, h) && Merged(s, root) && p in s
    requires Room(Live(s), h, o, Pow2(k)) && Within(o, Pow2(k), s[p].offset, s[p].size)
    ensures q in s && s[q].state.Free? && Within(o, Pow2(k), s[q].offset, s[q].size)
    decreases s[p].size
  {
    assert NodeOk(s, root, h, p);
    if s[p].state.Free? {
      q := p;
    } else {
      RoomIsSmaller(s, root, h, p, o, Pow2(k));
      var c := InOneHalf(s, root, h, p, o, k);
      q := FreeBlockAround(s, root, h, c, o, k);
    }
  }

  /** A free block is room for every aligned request it can hold. */
  lemma FreeBlockIsRoom(s: Store, root: Ptr, h: nat, p: Ptr, k: nat)
    requires Tree(s, root, h) && p in s && s[p].state.Free? && Pow2(k) <= s[p].size
    ensures Room(Live(s), h, s[p].offset, Pow2(k))
  {
    assert NodeOk(s, root, h, p);
    Log2OfPow2(k);
    Log2Monotone(Pow2(k), s[p].size);
    AlignedDown(s[p].offset, k, Log2(s[p].size));
    ClearOfFree(s, root, h, p, Pow2(k));
  }

  lemma ClearOfFree(s: Store, root: Ptr, h: nat, p: Ptr, size: nat)
    requires Tree(s, root, h) && p in s && s[p].state.Free? && size <= s[p].size
    ensures Clear(Live(s), s[p].offset, size)
  {
    forall b | b in Live(s) ensures !Overlap(b.offset, b.size, s[p].offset, size) {
      var q :| q in s && s[q].state.Allocated? && BlockOf(s[q]) == b;
      LeavesDisjoint(s, root, h, p, q);
    }
  }

  /** Eager merging leaves no avoidable failure: some aligned interval is clear of live allocations
      exactly when some free block is large enough. */
  lemma RoomIffFreeBlock(s: Store, root: Ptr, h: nat, k: nat)
    requires Tree(s, root, h) && Merged(s, root)
    ensures (exists o :: Room(Live(s), h, o, Pow2(k))) <==>
            (exists p :: p in s && s[p].state.Free? && Pow2(k) <= s[p].size)
  {
    if o :| Room(Live(s), h, o, Pow2(k)) {
      assert NodeOk(s, root, h, root);
      var q := FreeBlockAround(s, root, h, root, o, k);
    }
    if p :| p in s && s[p].state.Free? && Pow2(k) <= s[p].size {
      FreeBlockIsRoom(s, root, h, p, k);
    }
  }

  /** Some interval of the size at a multiple of the alignment is clear of live allocations. */
  ghost predicate AlignedRoom(live: set<Block>, h: nat, size: nat, alignment: nat)
    requires size > 0 && alignment > 0
  {
    exists o: nat :: o % alignment == 0 && Room(live, h, o, size)
  }

  predicate AlignedBlock(s: Store, p: Ptr, size: nat, alignment: nat)
    requires alignment > 0
  {
    p in s && s[p].state.Free? && size <= s[p].size && s[p].offset % alignment == 0
  }

  /** For any alignment, aligned room exists exactly when a large enough free block starts aligned. */
  lemma AlignedRoomExactly(s: Store, root: Ptr, h: nat, k: nat, alignment: nat)
    requires Tree(s, root, h) && Merged(s, root) && k <= h && IsPow2(alignment)
    ensures AlignedRoom(Live(s), h, Pow2(k), alignment) <==> exists p :: AlignedBlock(s, p, Pow2(k), alignment)
  {
    if p :| AlignedBlock(s, p, Pow2(k), alignment) {
      FreeBlockIsRoom(s, root, h, p, k);
    }
    if AlignedRoom(Live(s), h, Pow2(k), alignment) {
      var o: nat :| o % alignment == 0 && Room(Live(s), h, o, Pow2(k));
      assert NodeOk(s, root, h, root);
      var q := FreeBlockAround(s, root, h, root, o, k);
      AlignedInside(s, root, h, q, o, alignment);
      assert AlignedBlock(s, q, Pow2(k), alignment);
    }
  }

  lemma AlignedInside(s: Store, root: Ptr, h: nat, q: Ptr, o: nat, alignment: nat)
    requires Tree(s, root, h) && q in s && IsPow2(alignment) && o % alignment == 0
    requires s[q].offset <= o < s[q].offset + s[q].size
    ensures s[q].offset % alignment == 0
  {
    assert NodeOk(s, root, h, q);
    if alignment <= s[q].size {
      AlignedToLess(s[q].offset, s[q].size, alignment);
    } else {
      AlignedToLess(o, alignment, s[q].size);
      CloseMultiples(s[q].offset, o, s[q].size);
    }
  }

  /** A block's state is a function of its place and of the live allocations. */
  lemma StateFromLive(s: Store, root: Ptr, h: nat, p: Ptr)
    requires Tree(s, root, h) && Merged(s, root) && p in s
    ensures s[p].state.Allocated? <==> BlockOf(s[p]) in Live(s)
    ensures s[p].state.Free? <==>
            forall b :: b in Live(s) ==> !Within(b.offset, b.size, s[p].offset, s[p].size)
  {
    if BlockOf(s[p]) in Live(s) {
      var q :| q in s && s[q].state.Allocated? && BlockOf(s[q]) == BlockOf(s[p]);
      UniqueBlock(s, root, h, p, q);
    }
    if s[p].state.Free? {
      forall b | b in Live(s) ensures !Within(b.offset, b.size, s[p].offset, s[p].size) {
        var q :| q in s && s[q].state.Allocated? && BlockOf(s[q]) == b;
        assert NodeOk(s, root, h, q);
        LeavesDisjoint(s, root, h, p, q);
      }
    } else {
      var q := LiveInside(s, root, h, p);
      assert BlockOf(s[q]) in Live(s);
    }
  }

  /** What can be seen of the tree apart from the pointer values. */
  ghost predicate Has(s: Store, b: Block, state: BlockState) {
    exists p :: p in s && BlockOf(s[p]) == b && s[p].state == state
  }

  lemma {:induction false} Counterpart(s: Store, r1: Ptr, t: Store, r2: Ptr, h: nat, p: Ptr) returns (q: Ptr)
    requires Tree(s, r1, h) && Merged(s, r1) && Tree(t, r2, h) && Merged(t, r2)
    requires Live(s) == Live(t) && p in s
    ensures q in t && BlockOf(t[q]) == BlockOf(s[p]) && t[q].state == s[p].state
    decreases Pow2(h) - s[p].size
  {
    assert NodeOk(s, r1, h, p);
    if p == r1 {
      q := r2;
      assert NodeOk(t, r2, h, r2);
    } else {
      var pp := ParentFacts(s, r1, h, p);
      assert NodeOk(s, r1, h, pp);
      var qq := Counterpart(s, r1, t, r2, h, pp);
      var l, r := ChildFacts(t, r2, h, qq);
      q := if p == s[pp].links.pLeft then l else r;
    }
    StateFromLive(s, r1, h, p);
    StateFromLive(t, r2, h, q);
  }

  /** The block tree is determined by the set of live (offset, size) pairs. */
  lemma DeterminedByLive(s: Store, r1: Ptr, t: Store, r2: Ptr, h: nat, b: Block, state: BlockState)
    requires Tree(s, r1, h) && Merged(s, r1) && Tree(t, r2, h) && Merged(t, r2)
    requires Live(s) == Live(t)
    ensures Has(s, b, state) <==> Has(t, b, state)
  {
    if p :| p in s && BlockOf(s[p]) == b && s[p].state == state {
      var q := Counterpart(s, r1, t, r2, h, p);
    }
    if q :| q in t && BlockOf(t[q]) == b && t[q].state == state {
      var p := Counterpart(t, r2, s, r1, h, q);
    }
  }

  /** With nothing live, only the free root block is left. */
  lemma EmptyIsRoot(s: Store, root: Ptr, h: nat)
    requires Tree(s, root, h) && Merged(s, root) && Live(s) == {}
    ensures s.Keys == {root} && s[root].state.Free?
  {
    StateFromLive(s, root, h, root);
    forall p | p in s ensures p == root {
      assert NodeOk(s, root, h, p) && NodeOk(s, root, h, root);
      if p != root { ContainerIsSplit(s, root, h, p, root); }
    }
  }

  /** t is s with the leaf c split into l and r. The links of free blocks are not looked at. */
  ghost predicate IsSplitOf(s: Store, t: Store, c: Ptr, l: Ptr, r: Ptr)
    requires c in s
  {
    && l !in s && r !in s && l != r && l != NULL && r != NULL
    && t.Keys == s.Keys + {l, r}
    && (forall p :: p in s && p != c ==> SameBlock(s[p], t[p]))
    && t[c] == s[c].(state := Split, links := SplitLink(l))
    && t[l] == BuddyBlock(s[c].offset, s[c].size / 2, r, c, Free, t[l].links)
    && t[r] == BuddyBlock(s[c].offset + s[c].size / 2, s[c].size / 2, l, c, Free, t[r].links)
  }

  ghost predicate SameBlock(b: BuddyBlock, b': BuddyBlock) {
    b' == b.(links := b'.links) && (!b.state.Free? ==> b' == b)
  }

  lemma SplitOk(s: Store, t: Store, root: Ptr, h: nat, c: Ptr, l: Ptr, r: Ptr)
    requires Tree(s, root, h) && MergedExcept(s, root, c)
    requires c in s && s[c].state.Free? && s[c].size > 1 && IsSplitOf(s, t, c, l, r)
    ensures Tree(t, root, h) && MergedExcept(t, root, l) && Live(t) == Live(s)
  {
    SplitTree(s, t, root, h, c, l, r);
    forall p | p in t ensures Separated(t, root, l, p) {
      SplitSeparated(s, t, root, h, c, l, r, p);
    }
    SameLive(s, t);
  }

  lemma SplitTree(s: Store, t: Store, root: Ptr, h: nat, c: Ptr, l: Ptr, r: Ptr)
    requires Tree(s, root, h) && c in s && s[c].state.Free? && s[c].size > 1 && IsSplitOf(s, t, c, l, r)
    ensures Tree(t, root, h)
  {
    HalfPlaced(s, root, h, c, t[l]);
    HalfPlaced(s, root, h, c, t[r]);
    forall p | p in t ensures NodeOk(t, root, h, p) {
      if p in s {
        SplitNode(s, t, root, h, c, l, r, p);
      } else {
        SplitChild(s, t, root, h, c, l, r, p);
      }
    }
  }

  lemma HalfPlaced(s: Store, root: Ptr, h: nat, c: Ptr, b: BuddyBlock)
    requires Tree(s, root, h) && c in s && s[c].size > 1
    requires b.size == s[c].size / 2 && (b.offset == s[c].offset || b.offset == s[c].offset + b.size)
    ensures 2 * (s[c].size / 2) == s[c].size && Placed(b, h)
  {
    assert NodeOk(s, root, h, c);
    HalfOfPow2(s[c].size);
    HalvesAligned(s[c].offset, Log2(s[c].size));
  }

  lemma SplitNode(s: Store, t: Store, root: Ptr, h: nat, c: Ptr, l: Ptr, r: Ptr, p: Ptr)
    requires Tree(s, root, h) && p in s
    requires c in s && s[c].state.Free? && s[c].size > 1 && 2 * (s[c].size / 2) == s[c].size && IsSplitOf(s, t, c, l, r)
    ensures NodeOk(t, root, h, p)
  {
    assert NodeOk(s, root, h, p);
    assert p == c || SameBlock(s[p], t[p]);
  }

  lemma SplitChild(s: Store, t: Store, root: Ptr, h: nat, c: Ptr, l: Ptr, r: Ptr, p: Ptr)
    requires root in s && c in s && IsSplitOf(s, t, c, l, r) && p in t && p !in s
    requires Placed(t[l], h) && Placed(t[r], h)
    ensures NodeOk(t, root, h, p)
  {
    assert p == l || p == r;
  }

  lemma SplitSeparated(s: Store, t: Store, root: Ptr, h: nat, c: Ptr, l: Ptr, r: Ptr, p: Ptr)
    requires Tree(s, root, h) && MergedExcept(s, root, c) && p in t
    requires c in s && IsSplitOf(s, t, c, l, r)
    ensures Separated(t, root, l, p)
  {
    if p in s && p != root {
      assert Separated(s, root, c, p);
      var q := ParentFacts(s, root, h, p);
      assert p == c || SameBlock(s[p], t[p]);
    }
  }

  lemma SameLive(s: Store, t: Store)
    requires forall p :: p in s && s[p].state.Allocated? ==> p in t && t[p] == s[p]
    requires forall p :: p in t && t[p].state.Allocated? ==> p in s && t[p] == s[p]
    ensures Live(t) == Live(s)
  {
  }

  /** t is s with the two children of q deleted and q made a free leaf. */
  ghost predicate IsMergeOf(s: Store, t: Store, q: Ptr, a: Ptr, b: Ptr)
    requires q in s
  {
    && t.Keys == s.Keys - {a, b} && q != a && q != b
    && (forall p :: p in t && p != q ==> SameBlock(s[p], t[p]))
    && t[q] == s[q].(state := Free)
  }

  lemma MergeOk(s: Store, t: Store, root: Ptr, h: nat, a: Ptr)
    requires Tree(s, root, h) && MergedExcept(s, root, a)
    requires a in s && a != root && s[a].state.Free?
    requires s[a].pBuddy in s && s[s[a].pBuddy].state.Free?
    requires s[a].pParent in s && IsMergeOf(s, t, s[a].pParent, a, s[a].pBuddy)
    ensures Tree(t, root, h) && MergedExcept(t, root, s[a].pParent) && Live(t) == Live(s)
  {
    var q := ParentFacts(s, root, h, a);
    forall p | p in t ensures NodeOk(t, root, h, p) {
      MergeNode(s, t, root, h, a, p);
    }
    forall p | p in t ensures Separated(t, root, q, p) {
      MergeSeparated(s, t, root, h, a, p);
    }
    MergeLive(s, t, q, a, s[a].pBuddy);
  }

  lemma MergeLive(s: Store, t: Store, q: Ptr, a: Ptr, b: Ptr)
    requires q in s && a in s && b in s && s[q].state.Split? && s[a].state.Free? && s[b].state.Free?
    requires IsMergeOf(s, t, q, a, b)
    ensures Live(t) == Live(s)
  {
    forall p | p in s && s[p].state.Allocated? ensures p in t && t[p] == s[p] { assert SameBlock(s[p], t[p]); }
    forall p | p in t && t[p].state.Allocated? ensures p in s && t[p] == s[p] { assert SameBlock(s[p], t[p]); }
    SameLive(s, t);
  }

  lemma MergeNode(s: Store, t: Store, root: Ptr, h: nat, a: Ptr, p: Ptr)
    requires Tree(s, root, h) && a in s && a != root && s[a].pParent in s
    requires s[a].state.Free? && s[a].pBuddy in s && s[s[a].pBuddy].state.Free?
    requires IsMergeOf(s, t, s[a].pParent, a, s[a].pBuddy) && p in t
    ensures NodeOk(t, root, h, p)
  {
    var q := ParentFacts(s, root, h, a);
    assert NodeOk(s, root, h, p);
    assert p == q || SameBlock(s[p], t[p]);
  }

  lemma MergeSeparated(s: Store, t: Store, root: Ptr, h: nat, a: Ptr, p: Ptr)
    requires Tree(s, root, h) && MergedExcept(s, root, a) && a in s && a != root && s[a].pParent in s
    requires IsMergeOf(s, t, s[a].pParent, a, s[a].pBuddy) && p in t
    ensures Separated(t, root, s[a].pParent, p)
  {
    assert Separated(s, root, a, p);
    var q := ParentFacts(s, root, h, a);
    if p != root && p != q {
      var pp := ParentFacts(s, root, h, p);
      assert SameBlock(s[p], t[p]);
    }
  }

  /** A leaf may change between free and allocated. */
  ghost predicate IsLeafChangeOf(s: Store, t: Store, c: Ptr) {
    && c in s && !s[c].state.Split? && t.Keys == s.Keys && !t[c].state.Split?
    && t[c] == s[c].(state := t[c].state, links := t[c].links)
    && (forall p :: p in s && p != c ==> SameBlock(s[p], t[p]))
  }

  lemma LeafChangeOk(s: Store, t: Store, root: Ptr, h: nat, c: Ptr)
    requires Tree(s, root, h) && IsLeafChangeOf(s, t, c)
    ensures Tree(t, root, h)
  {
    forall p | p in t ensures NodeOk(t, root, h, p) {
      assert NodeOk(s, root, h, p);
    }
  }

  lemma LeafChangeLive(s: Store, t: Store, root: Ptr, h: nat, c: Ptr)
    requires Tree(s, root, h) && IsLeafChangeOf(s, t, c)
    ensures Live(t) == if t[c].state.Allocated? then Live(s) + {BlockOf(s[c])} else Live(s) - {BlockOf(s[c])}
  {
    forall p | p in s && BlockOf(s[p]) == BlockOf(s[c]) ensures p == c {
      UniqueBlock(s, root, h, p, c);
    }
    forall b ensures b in Live(t) <==> (if b == BlockOf(s[c]) then t[c].state.Allocated? else b in Live(s)) {
      if p :| p in s && s[p].state.Allocated? && BlockOf(s[p]) == b {
        assert p == c || SameBlock(s[p], t[p]);
      }
      if p :| p in t && t[p].state.Allocated? && BlockOf(t[p]) == b {
        assert p == c || SameBlock(s[p], t[p]);
      }
    }
  }
}
