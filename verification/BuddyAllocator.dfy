/** src/dawn_native/BuddyAllocator: power-of-two blocks split on allocation and merged eagerly on
    deallocation, with one doubly linked free list per level of the tree. */
module BuddyAllocation {
  import opened PowersOfTwo
  import opened BuddyBlocks
  import opened PointerLists

  const INVALID_OFFSET: nat := 0xFFFF_FFFF_FFFF_FFFF
  /** The largest power of two that a uint64_t holds. */
  const MAX_SIZE: nat := 0x8000_0000_0000_0000

  ghost predicate LinkOk(s: Store, xs: seq<Ptr>, i: nat)
    requires i < |xs|
  {
    && xs[i] in s && xs[i] != NULL && s[xs[i]].links.FreeLinks?
    && s[xs[i]].links.pNext == (if i + 1 < |xs| then xs[i + 1] else NULL)
    && (i > 0 ==> s[xs[i]].links.pPrev == xs[i - 1])
  }

  /** xs is the linked list that starts at head. The first block's pPrev may be stale. */
  ghost predicate ListOk(s: Store, head: Ptr, xs: seq<Ptr>) {
    && head == (if xs == [] then NULL else xs[0])
    && (forall i :: 0 <= i < |xs| ==> LinkOk(s, xs, i))
    && Distinct(xs)
  }

  ghost predicate ListsOk(s: Store, heads: seq<Ptr>, lists: seq<seq<Ptr>>) {
    |heads| == |lists| && forall l :: 0 <= l < |lists| ==> ListOk(s, heads[l], lists[l])
  }

  function LevelOf(b: BuddyBlock, h: nat): (l: int)
    requires b.size > 0
  {
    h - Log2(b.size)
  }

  function Level(s: Store, p: Ptr, h: nat): (l: int)
    requires p in s
  {
    if s[p].size > 0 then LevelOf(s[p], h) else -1
  }

  /** p is in the list of its level exactly when it is a free block outside `except`. */
  ghost predicate Listed(s: Store, lists: seq<seq<Ptr>>, h: nat, except: set<Ptr>, p: Ptr)
    requires |lists| == h + 1
  {
    forall l :: 0 <= l <= h ==>
      (p in lists[l] <==> p in s && s[p].state.Free? && p !in except && s[p].size > 0 && LevelOf(s[p], h) == l)
  }

  /** Each level's list holds exactly the free blocks of that level, leaving out those in `except`. */
  ghost predicate ListsExact(s: Store, lists: seq<seq<Ptr>>, h: nat, except: set<Ptr>) {
    |lists| == h + 1 && forall p {:trigger Listed(s, lists, h, except, p)} :: Listed(s, lists, h, except, p)
  }

  lemma ExactFree(s: Store, heads: seq<Ptr>, lists: seq<seq<Ptr>>, h: nat, except: set<Ptr>)
    requires ListsExact(s, lists, h, except) && ListsOk(s, heads, lists)
    ensures FreeLists(s, heads, lists)
  {
    forall l, m, p | 0 <= l < m < |lists| && p in lists[l] ensures p !in lists[m] {
      assert Listed(s, lists, h, except, p);
    }
    forall l, p | 0 <= l < |lists| && p in lists[l] ensures p in s && s[p].state.Free? {
      assert Listed(s, lists, h, except, p);
    }
  }

  /** The two stores agree on everything but the links of free blocks. */
  ghost predicate Relinked(s: Store, t: Store) {
    s.Keys == t.Keys && forall p {:trigger t[p]} :: p in s ==> SameBlock(s[p], t[p])
  }

  /** The lists are sound, hold free blocks only, and share none. */
  ghost predicate FreeLists(s: Store, heads: seq<Ptr>, lists: seq<seq<Ptr>>) {
    && ListsOk(s, heads, lists) && Apart(lists)
    && forall l, p :: 0 <= l < |lists| && p in lists[l] ==> p in s && s[p].state.Free?
  }

  /** Blocks that are not listed may come and go. */
  lemma ListsFrame(s: Store, t: Store, heads: seq<Ptr>, lists: seq<seq<Ptr>>)
    requires FreeLists(s, heads, lists)
    requires forall l, p :: 0 <= l < |lists| && p in lists[l] ==> p in t && t[p] == s[p]
    ensures FreeLists(t, heads, lists)
  {
    forall l | 0 <= l < |lists| ensures ListOk(t, heads[l], lists[l]) {
      ListFrame(s, t, heads[l], lists[l]);
    }
  }

  /** The head of a level's list is a free block of that level, and no listed block is anything else. */
  lemma SplitPre(s: Store, heads: seq<Ptr>, lists: seq<seq<Ptr>>, root: Ptr, h: nat, c: Ptr,
                 level: nat)
    requires ListsOk(s, heads, lists) && ListsExact(s, lists, h, {}) && Tree(s, root, h)
    requires c in s && level < h && heads[level] == c
    ensures FreeLists(s, heads, lists) && lists[level] != [] && lists[level][0] == c
    ensures s[c].size > 1 && IsPow2(s[c].size) && Distinct(lists[level])
    ensures c !in Without(lists[level], 0) && forall m :: 0 <= m <= h && m != level ==> c !in lists[m]
  {
    ExactFree(s, heads, lists, h, {});
    assert NodeOk(s, root, h, c);
    HeadOk(s, c, lists[level]);
    assert Listed(s, lists, h, {}, c);
    WithoutMembers(lists[level], 0, c);
    Pow2Monotone(1, h - level);
  }

  function WithChildren(s: Store, c: Ptr, l: Ptr, r: Ptr): (t: Store)
    requires c in s
  {
    var n := s[c].size / 2;
    s[l := BuddyBlock(s[c].offset, n, r, c, Free, FreeLinks(NULL, NULL))]
     [r := BuddyBlock(s[c].offset + n, n, l, c, Free, FreeLinks(NULL, NULL))]
  }

  lemma RelinkedTwice(s: Store, t: Store, u: Store)
    requires Relinked(s, t) && Relinked(t, u)
    ensures Relinked(s, u)
  {
    forall p | p in s ensures SameBlock(s[p], u[p]) {
      assert SameBlock(s[p], t[p]) && SameBlock(t[p], u[p]);
    }
  }

  /** t is s with c marked as split and some free blocks linked anew. */
  ghost predicate MarkedSplit(s: Store, t: Store, c: Ptr, l: Ptr) {
    && c in s && t.Keys == s.Keys
    && (forall p {:trigger t[p]} :: p in s && p != c ==> SameBlock(s[p], t[p]))
    && t[c] == s[c].(state := Split, links := SplitLink(l))
  }

  /** Linking the two new children into the lists and marking their parent makes a split. */
  lemma SplitOfChildren(s: Store, t: Store, c: Ptr, l: Ptr, r: Ptr)
    requires c in s && l !in s && r !in s && l != r && l != NULL && r != NULL
    requires MarkedSplit(WithChildren(s, c, l, r), t, c, l)
    ensures IsSplitOf(s, t, c, l, r)
  {
    var u := WithChildren(s, c, l, r);
    assert SameBlock(u[l], t[l]) && SameBlock(u[r], t[r]);
    forall p | p in s && p != c ensures SameBlock(s[p], t[p]) {
      assert u[p] == s[p] && SameBlock(u[p], t[p]);
    }
  }

  lemma SplitAfterRelink(s: Store, s1: Store, t: Store, c: Ptr, l: Ptr, r: Ptr)
    requires Relinked(s, s1) && c in s && s1[c] == s[c] && IsSplitOf(s1, t, c, l, r)
    ensures IsSplitOf(s, t, c, l, r)
  {
    forall p | p in s && p != c ensures SameBlock(s[p], t[p]) {
      assert SameBlock(s[p], s1[p]) && SameBlock(s1[p], t[p]);
    }
  }

  lemma SplitListed(s: Store, t: Store, lists: seq<seq<Ptr>>, h: nat, c: Ptr, l: Ptr, r: Ptr,
                    level: nat, p: Ptr)
    requires ListsExact(s, lists, h, {}) && c in s && s[c].size > 1 && IsPow2(s[c].size) && IsSplitOf(s, t, c, l, r)
    requires level < h && lists[level] != [] && lists[level][0] == c && Distinct(lists[level])
    ensures Listed(t, lists[level := Without(lists[level], 0)][level + 1 := [l] + ([r] + lists[level + 1])], h, {}, p)
  {
    assert Listed(s, lists, h, {}, p) && Listed(s, lists, h, {}, c);
    HalfOfPow2(s[c].size);
    WithoutMembers(lists[level], 0, p);
    if p in s && p != c { assert SameBlock(s[p], t[p]); }
  }

  lemma SplitExact(s: Store, t: Store, lists: seq<seq<Ptr>>, ys: seq<seq<Ptr>>, h: nat, c: Ptr,
                   l: Ptr, r: Ptr, level: nat)
    requires ListsExact(s, lists, h, {}) && c in s && s[c].size > 1 && IsPow2(s[c].size) && IsSplitOf(s, t, c, l, r)
    requires level < h && lists[level] != [] && lists[level][0] == c && Distinct(lists[level])
    requires ys == lists[level := Without(lists[level], 0)][level + 1 := [l] + ([r] + lists[level + 1])]
    ensures ListsExact(t, ys, h, {})
  {
    forall p ensures Listed(t, ys, h, {}, p) {
      SplitListed(s, t, lists, h, c, l, r, level, p);
    }
  }

  lemma {:induction false} OrderBelowSize(k: nat)
    ensures k < Pow2(k)
  {
    if k > 0 { OrderBelowSize(k - 1); }
  }

  lemma InitialOk(s: Store, heads: seq<Ptr>, lists: seq<seq<Ptr>>, h: nat)
    requires s == map[1 := BuddyBlock(0, Pow2(h), NULL, NULL, Free, FreeLinks(NULL, NULL))]
    requires |heads| == |lists| == h + 1 && heads[0] == 1 && lists[0] == [1]
    requires forall l :: 1 <= l <= h ==> heads[l] == NULL && lists[l] == []
    ensures ListsOk(s, heads, lists) && ListsExact(s, lists, h, {})
    ensures Tree(s, 1, h) && Merged(s, 1) && Live(s) == {}
  {
    Log2OfPow2(h);
    assert NodeOk(s, 1, h, 1);
    forall l | 0 <= l <= h ensures ListOk(s, heads[l], lists[l]) {
      if l == 0 { assert LinkOk(s, lists[0], 0); }
    }
    forall p ensures Listed(s, lists, h, {}, p) {
    }
    forall p | p in s ensures Separated(s, 1, NULL, p) {
    }
  }

  /** The writes made while splitting keep the invariants. */
  lemma SplitSteps(s: Store, s1: Store, t: Store, lists: seq<seq<Ptr>>, ys: seq<seq<Ptr>>, root: Ptr,
                   h: nat, c: Ptr, l: Ptr, r: Ptr, level: nat)
    requires Tree(s, root, h) && MergedExcept(s, root, c) && ListsExact(s, lists, h, {})
    requires c in s && s[c].state.Free? && s[c].size > 1 && IsPow2(s[c].size)
    requires level < h && lists[level] != [] && lists[level][0] == c && Distinct(lists[level])
    requires ys == lists[level := Without(lists[level], 0)][level + 1 := [l] + ([r] + lists[level + 1])]
    requires Relinked(s, s1) && s1[c] == s[c] && l !in s && r !in s && l != r && l != NULL && r != NULL
    requires MarkedSplit(WithChildren(s1, c, l, r), t, c, l)
    ensures Tree(t, root, h) && MergedExcept(t, root, l) && Live(t) == Live(s) && ListsExact(t, ys, h, {})
    ensures t[l].state.Free? && t[l].offset == s[c].offset
  {
    SplitOfChildren(s1, t, c, l, r);
    SplitAfterRelink(s, s1, t, c, l, r);
    SplitOk(s, t, root, h, c, l, r);
    SplitExact(s, t, lists, ys, h, c, l, r, level);
  }

  lemma MergeListed(s: Store, t: Store, lists: seq<seq<Ptr>>, h: nat, a: Ptr, b: Ptr, q: Ptr,
                    level: nat, k: nat, p: Ptr)
    requires ListsExact(s, lists, h, {a}) && a in s && b in s && q in s && IsMergeOf(s, t, q, a, b)
    requires s[q].state.Split?
    requires level <= h && k < |lists[level]| && lists[level][k] == b && Distinct(lists[level])
    ensures Listed(t, lists[level := Without(lists[level], k)], h, {q}, p)
  {
    assert Listed(s, lists, h, {a}, p) && Listed(s, lists, h, {a}, b);
    WithoutMembers(lists[level], k, p);
    if p in t && p != q { assert SameBlock(s[p], t[p]); }
  }

  lemma MergePre(s: Store, heads: seq<Ptr>, lists: seq<seq<Ptr>>, root: Ptr, h: nat, a: Ptr,
                 level: nat)
    returns (k: nat)
    requires ListsOk(s, heads, lists) && ListsExact(s, lists, h, {a}) && Tree(s, root, h)
    requires a in s && a != root && Level(s, a, h) == level
    requires s[a].pBuddy in s && s[s[a].pBuddy].state.Free?
    ensures FreeLists(s, heads, lists) && level <= h && Distinct(lists[level])
    ensures k < |lists[level]| && lists[level][k] == s[a].pBuddy
    ensures s[a].pParent in s && s[a].pParent != a && s[a].pParent != s[a].pBuddy && s[a].pBuddy != a
  {
    ExactFree(s, heads, lists, h, {a});
    var q := ParentFacts(s, root, h, a);
    var b := s[a].pBuddy;
    assert NodeOk(s, root, h, b) && Listed(s, lists, h, {a}, b);
    assert b in lists[level];
    k :| 0 <= k < |lists[level]| && lists[level][k] == b;
  }

  /** The writes made while merging keep the invariants. */
  lemma MergeSteps(s: Store, s1: Store, t: Store, lists: seq<seq<Ptr>>, ys: seq<seq<Ptr>>, root: Ptr,
                   h: nat, a: Ptr, level: nat, k: nat)
    requires Tree(s, root, h) && MergedExcept(s, root, a) && ListsExact(s, lists, h, {a})
    requires a in s && a != root && s[a].state.Free? && Level(s, a, h) == level
    requires s[a].pBuddy in s && s[s[a].pBuddy].state.Free? && Relinked(s, s1)
    requires level <= h && k < |lists[level]| && lists[level][k] == s[a].pBuddy && Distinct(lists[level])
    requires ys == lists[level := Without(lists[level], k)]
    requires s[a].pParent in s1 && s[a].pParent != a && s[a].pParent != s[a].pBuddy
    requires t == (s1 - {s[a].pBuddy, a})[s[a].pParent := s1[s[a].pParent].(state := Free)]
    ensures Tree(t, root, h) && MergedExcept(t, root, s[a].pParent) && Live(t) == Live(s)
    ensures ListsExact(t, ys, h, {s[a].pParent}) && Level(t, s[a].pParent, h) == level - 1
    ensures Within(s[a].offset, s[a].size, t[s[a].pParent].offset, t[s[a].pParent].size)
    ensures forall m :: 0 <= m <= h ==> a !in ys[m] && s[a].pBuddy !in ys[m] && s[a].pParent !in ys[m]
  {
    var q := ParentFacts(s, root, h, a);
    var b := s[a].pBuddy;
    assert SameBlock(s[q], s1[q]);
    forall p | p in t && p != q ensures SameBlock(s[p], t[p]) {
      assert SameBlock(s[p], s1[p]);
    }
    assert IsMergeOf(s, t, q, a, b);
    MergeOk(s, t, root, h, a);
    forall p ensures Listed(t, ys, h, {q}, p) {
      MergeListed(s, t, lists, h, a, b, q, level, k, p);
    }
    assert Listed(t, ys, h, {q}, a) && Listed(t, ys, h, {q}, b) && Listed(t, ys, h, {q}, q);
  }

  /** The first free block of the level exists and starts at a multiple of the alignment. */
  ghost predicate HeadFits(s: Store, heads: seq<Ptr>, l: nat, alignment: nat)
    requires alignment > 0 && l < |heads|
  {
    heads[l] != NULL && heads[l] in s && s[heads[l]].offset % alignment == 0
  }

  /** No level from the requested one up to the root has an aligned block in front. */
  ghost predicate SearchFails(s: Store, heads: seq<Ptr>, level: int, alignment: nat)
    requires alignment > 0
  {
    forall l :: 0 <= l <= level && l < |heads| ==> !HeadFits(s, heads, l, alignment)
  }

  /** The free block that covers the offset is the first of its level. */
  ghost predicate HeadAround(s: Store, heads: seq<Ptr>, h: nat, l: nat, offset: nat) {
    && l < |heads| && l <= h && heads[l] in s && s[heads[l]].state.Free? && Level(s, heads[l], h) == l
    && s[heads[l]].offset <= offset < s[heads[l]].offset + s[heads[l]].size
  }

  /** The block that covers the offset was given back: it is the first of its level, and the free lists changed
      as giving it back changes them. */
  ghost predicate BackAtFront(s: Store, heads: seq<Ptr>, xs: seq<seq<Ptr>>, ys: seq<seq<Ptr>>, h: nat, offset: nat) {
    exists l: nat :: HeadAround(s, heads, h, l, offset) && GivenBack(xs, ys, l)
  }

  /** The offset that the search settles on: that of the first aligned list head, from the requested level
      up to the root. */
  ghost function Choice(s: Store, heads: seq<Ptr>, level: int, alignment: nat): (offset: nat)
    requires alignment > 0 && level < |heads|
    decreases level + 1
  {
    if level < 0 then INVALID_OFFSET
    else if HeadFits(s, heads, level, alignment) then s[heads[level]].offset
    else Choice(s, heads, level - 1, alignment)
  }

  /** Level r is the one nearest to the requested level, towards the root, whose first free block is aligned. */
  ghost predicate Nearest(s: Store, heads: seq<Ptr>, level: int, alignment: nat, r: nat)
    requires alignment > 0 && level < |heads|
  {
    && r <= level && HeadFits(s, heads, r, alignment)
    && forall l :: r < l <= level ==> !HeadFits(s, heads, l, alignment)
  }

  /** The offset is that of the first free block of the nearest level, and the free lists changed as taking it
      from there changes them. */
  ghost predicate AtNearest(s: Store, heads: seq<Ptr>, xs: seq<seq<Ptr>>, ys: seq<seq<Ptr>>, level: int, alignment: nat,
                            offset: nat)
    requires alignment > 0 && level < |heads|
  {
    exists r: nat ::
      Nearest(s, heads, level, alignment, r) && s[heads[r]].offset == offset && TakenFrom(xs, ys, r, level)
  }

  /** The choice is the first block of the nearest level with an aligned one. */
  lemma {:induction false} ChoiceIsNearest(s: Store, heads: seq<Ptr>, level: int, alignment: nat, r: nat)
    requires alignment > 0 && level < |heads| && Nearest(s, heads, level, alignment, r)
    ensures Choice(s, heads, level, alignment) == s[heads[r]].offset
    decreases level + 1
  {
    if level != r { ChoiceIsNearest(s, heads, level - 1, alignment, r); }
  }

  lemma LowerIsSmaller(s: Store, p: Ptr, q: Ptr, h: nat)
    requires p in s && q in s && Placed(s[p], h) && Placed(s[q], h) && Level(s, q, h) <= Level(s, p, h)
    ensures s[p].size <= s[q].size
  {
    Pow2Monotone(Log2(s[p].size), Log2(s[q].size));
  }

  /** p is a free block of at least the size, and no such block is smaller. */
  ghost predicate Smallest(s: Store, p: Ptr, size: nat) {
    && p in s && s[p].state.Free? && size <= s[p].size
    && forall q :: q in s && s[q].state.Free? && size <= s[q].size ==> s[p].size <= s[q].size
  }

  /** The offset is that of a smallest free block of at least the size. */
  ghost predicate BestFit(s: Store, size: nat, offset: nat) {
    exists p :: Smallest(s, p, size) && s[p].offset == offset
  }

  /** What allocating at `level` from the first block of level r does to the free lists: that block leaves its
      list, and one half of each split comes to the front of the lists between. */
  ghost predicate TakenFrom(xs: seq<seq<Ptr>>, ys: seq<seq<Ptr>>, r: nat, level: nat) {
    |ys| == |xs| && forall m :: 0 <= m < |xs| ==> TakenAt(xs[m], ys[m], m, r, level)
  }

  ghost predicate TakenAt(x: seq<Ptr>, y: seq<Ptr>, m: nat, r: nat, level: nat) {
    if m == r then x != [] && y == x[1..]
    else if r < m <= level then y != [] && y[1..] == x
    else y == x
  }

  /** The same before the block itself is taken: it is the first of the list of `level`. */
  ghost predicate SplitFrom(xs: seq<seq<Ptr>>, ys: seq<seq<Ptr>>, r: nat, level: nat) {
    |ys| == |xs| && r <= level < |xs| && ys[level] != []
    && TakenFrom(xs, ys[level := ys[level][1..]], r, level)
  }

  /** The first block of the level leaves its list, and its halves come to the front of the next. */
  ghost predicate AfterSplit(xs: seq<seq<Ptr>>, ys: seq<seq<Ptr>>, level: nat, left: Ptr, right: Ptr) {
    && level + 1 < |xs| && xs[level] != []
    && ys == xs[level := Without(xs[level], 0)][level + 1 := [left] + ([right] + xs[level + 1])]
  }

  lemma SplitOnce(xs: seq<seq<Ptr>>, ys: seq<seq<Ptr>>, zs: seq<seq<Ptr>>, r: nat, level: nat, left: Ptr, right: Ptr)
    requires SplitFrom(xs, ys, r, level) && level + 1 < |xs|
    requires AfterSplit(ys, zs, level, left, right)
    ensures SplitFrom(xs, zs, r, level + 1)
  {
    var ys' := ys[level := ys[level][1..]];
    var zs' := zs[level + 1 := zs[level + 1][1..]];
    assert zs[level + 1][1..] == [right] + ys[level + 1] && Without(ys[level], 0) == ys[level][1..];
    forall m | 0 <= m < |xs| ensures TakenAt(xs[m], zs'[m], m, r, level + 1) {
      assert TakenAt(xs[m], ys'[m], m, r, level);
    }
  }

  /** What giving a block back does: buddies leave their lists, the others keep their order, and the block that
      they are merged into comes to the front of the list of level l. */
  ghost predicate GivenBack(xs: seq<seq<Ptr>>, ys: seq<seq<Ptr>>, l: nat) {
    |ys| == |xs| && l < |xs| && ys[l] != [] && ys[l][1..] == xs[l]
    && forall m :: 0 <= m < |xs| && m != l ==> OneLess(xs[m], ys[m])
  }

  /** Merging has come up to the level: below it one block may have left each list. */
  ghost predicate MergedFrom(xs: seq<seq<Ptr>>, ys: seq<seq<Ptr>>, level: int) {
    |ys| == |xs| && forall m :: 0 <= m < |xs| ==> OneLess(xs[m], ys[m]) && (m <= level ==> ys[m] == xs[m])
  }

  lemma MergedOnce(xs: seq<seq<Ptr>>, ys: seq<seq<Ptr>>, zs: seq<seq<Ptr>>, level: nat)
    requires MergedFrom(xs, ys, level) && level < |ys|
    requires exists k :: 0 <= k < |ys[level]| && zs == ys[level := Without(ys[level], k)]
    ensures MergedFrom(xs, zs, level - 1)
  {
    forall m | 0 <= m < |xs| ensures OneLess(xs[m], zs[m]) { assert OneLess(xs[m], ys[m]); }
  }

  lemma BackInList(xs: seq<seq<Ptr>>, ys: seq<seq<Ptr>>, zs: seq<seq<Ptr>>, level: nat, c: Ptr)
    requires MergedFrom(xs, ys, level) && level < |ys| && zs == ys[level := [c] + ys[level]]
    ensures GivenBack(xs, zs, level)
  {
    assert zs[level][1..] == ys[level] == xs[level];
    forall m | 0 <= m < |xs| && m != level ensures OneLess(xs[m], zs[m]) { assert OneLess(xs[m], ys[m]); }
  }

  ghost predicate OneLess(x: seq<Ptr>, y: seq<Ptr>) {
    x == y || exists k :: 0 <= k < |x| && y == Without(x, k)
  }

  ghost predicate NoRoom(live: set<Block>, h: nat, size: nat)
    requires size > 0
  {
    forall o :: !Room(live, h, o, size)
  }

  /** The size of the block that serves a request: the request itself only for a power of two. */
  function BlockSize(allocationSize: nat): (r: nat)
    ensures r > 0 && IsPow2(r)
    ensures 0 < allocationSize ==> r <= allocationSize < 2 * r
    ensures IsPow2(allocationSize) <==> r == allocationSize
  {
    if allocationSize == 0 then Log2OfPow2(0); 1 else
    Log2OfPow2(Log2(allocationSize));
    Pow2(Log2(allocationSize))
  }

  lemma LevelOfRequest(allocationSize: nat, h: nat)
    requires 0 < allocationSize <= Pow2(h)
    ensures Log2(Pow2(h)) == h && Log2(allocationSize) <= h && BlockSize(allocationSize) == Pow2(Log2(allocationSize))
  {
    Log2OfPow2(h);
    Log2Monotone(allocationSize, Pow2(h));
  }

  lemma MergedAnywhere(s: Store, root: Ptr, h: nat, c: Ptr)
    requires Tree(s, root, h) && Merged(s, root)
    ensures MergedExcept(s, root, c)
  {
    forall p | p in s ensures Separated(s, root, c, p) {
      assert Separated(s, root, NULL, p) && NodeOk(s, root, h, p);
      if p != root {
        var q := ParentFacts(s, root, h, p);
        assert NodeOk(s, root, h, s[p].pBuddy);
      }
    }
  }

  /** Taking the free block c as an allocation keeps the invariants. */
  lemma TakeOk(s: Store, s1: Store, t: Store, lists: seq<seq<Ptr>>, ys: seq<seq<Ptr>>, root: Ptr,
               h: nat, c: Ptr, level: nat)
    requires Tree(s, root, h) && MergedExcept(s, root, c) && ListsExact(s, lists, h, {}) && level <= h
    requires c in s && s[c].state.Free? && Relinked(s, s1) && s1[c] == s[c] && t == s1[c := s1[c].(state := Allocated)]
    requires lists[level] != [] && lists[level][0] == c && Distinct(lists[level])
    requires ys == lists[level := Without(lists[level], 0)]
    ensures Tree(t, root, h) && Merged(t, root) && ListsExact(t, ys, h, {})
    ensures Live(t) == Live(s) + {BlockOf(s[c])}
    ensures forall m :: 0 <= m <= h ==> c !in ys[m]
  {
    forall p | p in s && p != c ensures SameBlock(s[p], t[p]) {
      assert SameBlock(s[p], s1[p]);
    }
    LeafChangeOk(s, t, root, h, c);
    LeafChangeLive(s, t, root, h, c);
    forall p | p in t ensures Separated(t, root, NULL, p) {
      assert Separated(s, root, c, p);
      if p != root && p != c { var q := ParentFacts(s, root, h, p); }
    }
    forall p ensures Listed(t, ys, h, {}, p) {
      assert Listed(s, lists, h, {}, p) && Listed(s, lists, h, {}, c);
      WithoutMembers(lists[level], 0, p);
      if p in s && p != c { assert SameBlock(s[p], t[p]); }
    }
    assert Listed(t, ys, h, {}, c);
  }

  /** Releasing the allocation c keeps the invariants, with c not in any list yet. */
  lemma ReleaseOk(s: Store, t: Store, heads: seq<Ptr>, lists: seq<seq<Ptr>>, root: Ptr, h: nat,
                  c: Ptr)
    requires Tree(s, root, h) && Merged(s, root) && ListsExact(s, lists, h, {}) && ListsOk(s, heads, lists)
    requires c in s && s[c].state.Allocated? && t == s[c := s[c].(state := Free)]
    ensures Tree(t, root, h) && MergedExcept(t, root, c) && ListsExact(t, lists, h, {c}) && ListsOk(t, heads, lists)
    ensures Live(t) == Live(s) - {BlockOf(s[c])}
  {
    ExactFree(s, heads, lists, h, {});
    LeafChangeOk(s, t, root, h, c);
    LeafChangeLive(s, t, root, h, c);
    MergedAnywhere(s, root, h, c);
    forall p | p in t ensures Separated(t, root, c, p) {
      assert Separated(s, root, c, p);
    }
    forall p ensures Listed(t, lists, h, {c}, p) {
      assert Listed(s, lists, h, {}, p);
    }
    ListsFrame(s, t, heads, lists);
  }

  lemma RelinkedTree(s: Store, t: Store, root: Ptr, h: nat)
    requires Tree(s, root, h) && Relinked(s, t)
    ensures Tree(t, root, h)
  {
    forall p | p in t ensures NodeOk(t, root, h, p) {
      assert NodeOk(s, root, h, p) && SameBlock(s[p], t[p]);
    }
  }

  /** Listing the last merged block restores the invariants in full. */
  lemma RelistOk(s: Store, t: Store, lists: seq<seq<Ptr>>, ys: seq<seq<Ptr>>, root: Ptr, h: nat,
                 c: Ptr, level: nat)
    requires Tree(s, root, h) && MergedExcept(s, root, c) && ListsExact(s, lists, h, {c}) && Relinked(s, t)
    requires c in s && s[c].state.Free? && Level(s, c, h) == level <= h && ys == lists[level := [c] + lists[level]]
    requires c != root ==> s[c].pBuddy in s && !s[s[c].pBuddy].state.Free?
    ensures Tree(t, root, h) && Merged(t, root) && ListsExact(t, ys, h, {}) && Live(t) == Live(s)
  {
    RelinkedTree(s, t, root, h);
    forall p | p in t ensures Separated(t, root, NULL, p) {
      assert Separated(s, root, c, p) && SameBlock(s[p], t[p]);
      if p != root { var q := ParentFacts(s, root, h, p); }
    }
    forall p ensures Listed(t, ys, h, {}, p) {
      assert Listed(s, lists, h, {c}, p);
      if p in s { assert SameBlock(s[p], t[p]); }
    }
    forall p | p in s ensures SameBlock(s[p], t[p]) { }
    SameLive(s, t);
  }

  lemma OneLiveAt(s: Store, root: Ptr, h: nat, offset: nat, b: Block)
    requires Tree(s, root, h) && b in Live(s) && b.offset == offset
    ensures forall a :: a in Live(s) && a.offset == offset ==> a == b
  {
    forall a | a in Live(s) && a.offset == offset ensures a == b {
      LiveDisjoint(s, root, h, a, b);
      LiveDisjoint(s, root, h, b, a);
    }
  }

  /** Comparing the offset with the right child's picks the half that holds the target. */
  lemma Descend(s: Store, root: Ptr, h: nat, target: Ptr, curr: Ptr)
    requires Tree(s, root, h) && curr in s && s[curr].state.Split?
    requires target in s && !s[target].state.Split? && Inside(s, target, curr)
    ensures s[curr].links.SplitLink? && s[curr].links.pLeft in s && s[s[curr].links.pLeft].pBuddy in s
    ensures var l := s[curr].links.pLeft; var r := s[l].pBuddy;
      && Level(s, l, h) == Level(s, curr, h) + 1 == Level(s, r, h)
      && s[l].size < s[curr].size && s[r].size < s[curr].size
      && Inside(s, target, if s[target].offset < s[r].offset then l else r)
  {
    var l, r := ChildFacts(s, root, h, curr);
    assert NodeOk(s, root, h, target) && NodeOk(s, root, h, curr);
    ContainerIsSplit(s, root, h, target, curr);
    SmallerPow2(s[target].size, s[curr].size);
    BlocksNested(s, root, h, target, l);
    BlocksNested(s, root, h, target, r);
  }

  lemma TopLevelIsRoot(s: Store, root: Ptr, h: nat, p: Ptr)
    requires Tree(s, root, h) && p in s
    ensures 0 <= Level(s, p, h) <= h && (Level(s, p, h) == 0 <==> p == root)
  {
    assert NodeOk(s, root, h, p);
    Log2OfPow2(h);
    if p != root { var q := ParentFacts(s, root, h, p); assert NodeOk(s, root, h, q); }
  }

  /** No block is in the lists of two levels. */
  ghost predicate Apart(lists: seq<seq<Ptr>>) {
    forall l, m, p :: 0 <= l < m < |lists| && p in lists[l] ==> p !in lists[m]
  }

  lemma ApartAfter(lists: seq<seq<Ptr>>, level: nat, xs: seq<Ptr>, added: set<Ptr>)
    requires Apart(lists) && level < |lists|
    requires forall p :: p in xs ==> p in lists[level] || p in added
    requires forall l, p :: 0 <= l < |lists| && p in added ==> p !in lists[l]
    ensures Apart(lists[level := xs])
  {
    var ys := lists[level := xs];
    forall l, m, p | 0 <= l < m < |ys| && p in ys[l] ensures p !in ys[m] {
      assert l != level ==> p in lists[l];
    }
  }

  lemma ListFrame(s: Store, t: Store, head: Ptr, xs: seq<Ptr>)
    requires ListOk(s, head, xs)
    requires forall p :: p in xs && p in s ==> p in t && t[p].links == s[p].links
    ensures ListOk(t, head, xs)
  {
    forall i | 0 <= i < |xs| ensures LinkOk(t, xs, i) {
      assert LinkOk(s, xs, i) && xs[i] in xs;
    }
  }

  /** The store after `block` has been linked in front of the list that starts at head. */
  function LinkFront(s: Store, head: Ptr, block: Ptr): (t: Store)
    requires block in s && (head != NULL ==> head in s && s[head].links.FreeLinks? && head != block)
  {
    var s' := s[block := s[block].(links := FreeLinks(NULL, head))];
    if head == NULL then s' else s'[head := s'[head].(links := s'[head].links.(pPrev := block))]
  }

  lemma HeadOk(s: Store, head: Ptr, xs: seq<Ptr>)
    requires ListOk(s, head, xs)
    ensures head == NULL <==> xs == []
    ensures head != NULL ==> head in s && s[head].links.FreeLinks? && head in xs
  {
    if xs != [] { assert LinkOk(s, xs, 0); }
  }

  lemma LinkFrontOk(s: Store, head: Ptr, xs: seq<Ptr>, block: Ptr)
    requires ListOk(s, head, xs) && block in s && block != NULL && block !in xs
    requires s[block].state.Free? && forall p :: p in xs ==> p in s && s[p].state.Free?
    ensures head != NULL ==> head in s && s[head].links.FreeLinks? && head != block
    ensures ListOk(LinkFront(s, head, block), block, [block] + xs)
    ensures Relinked(s, LinkFront(s, head, block))
    ensures forall p :: p in s && p !in [block] + xs ==> LinkFront(s, head, block)[p] == s[p]
  {
    HeadOk(s, head, xs);
    var t, ys := LinkFront(s, head, block), [block] + xs;
    forall i | 0 <= i < |ys| ensures LinkOk(t, ys, i) {
      if i > 0 {
        assert LinkOk(s, xs, i - 1) && ys[i] == xs[i - 1] && xs[i - 1] in xs;
      }
    }
    assert Distinct(ys);
  }

  /** The store after a block between pPrev and pNext has been bridged over. */
  function Bridge(s: Store, pPrev: Ptr, pNext: Ptr): (t: Store)
    requires pPrev in s && s[pPrev].links.FreeLinks?
    requires pNext != NULL ==> pNext in s && s[pNext].links.FreeLinks? && pNext != pPrev
  {
    var s' := s[pPrev := s[pPrev].(links := s[pPrev].links.(pNext := pNext))];
    if pNext == NULL then s' else s'[pNext := s'[pNext].(links := s'[pNext].links.(pPrev := pPrev))]
  }

  lemma BridgeOk(s: Store, head: Ptr, xs: seq<Ptr>, k: nat, pPrev: Ptr, pNext: Ptr)
    requires ListOk(s, head, xs) && 0 < k < |xs|
    requires pPrev == xs[k - 1] && pNext == if k + 1 < |xs| then xs[k + 1] else NULL
    requires forall p :: p in xs ==> p in s && s[p].state.Free?
    ensures xs[k] in s && s[xs[k]].links == FreeLinks(pPrev, pNext)
    ensures pPrev in s && s[pPrev].links.FreeLinks?
    ensures pNext != NULL ==> pNext in s && s[pNext].links.FreeLinks? && pNext != pPrev
    ensures ListOk(Bridge(s, pPrev, pNext), head, Without(xs, k))
    ensures Relinked(s, Bridge(s, pPrev, pNext))
    ensures forall p :: p in s && p !in xs ==> Bridge(s, pPrev, pNext)[p] == s[p]
    ensures Bridge(s, pPrev, pNext)[xs[k]] == s[xs[k]]
  {
    assert LinkOk(s, xs, k) && LinkOk(s, xs, k - 1) && (k + 1 < |xs| ==> LinkOk(s, xs, k + 1));
    assert pNext != NULL ==> pNext in xs;
    var t, ys := Bridge(s, pPrev, pNext), Without(xs, k);
    forall i | 0 <= i < |ys| ensures LinkOk(t, ys, i) {
      var j := if i < k then i else i + 1;
      assert LinkOk(s, xs, j) && ys[i] == xs[j];
    }
    assert Distinct(ys);
  }

  lemma TailOk(s: Store, head: Ptr, xs: seq<Ptr>)
    requires ListOk(s, head, xs) && xs != []
    ensures head in s && s[head].links.FreeLinks?
    ensures ListOk(s, s[head].links.pNext, Without(xs, 0))
  {
    assert LinkOk(s, xs, 0);
    var ys := Without(xs, 0);
    forall i | 0 <= i < |ys| ensures LinkOk(s, ys, i) {
      assert LinkOk(s, xs, i + 1) && ys[i] == xs[i + 1];
    }
    assert Distinct(ys);
  }

  /** Changing one list leaves the others intact. */
  lemma OthersOk(s: Store, t: Store, heads: seq<Ptr>, lists: seq<seq<Ptr>>, level: nat,
                 added: set<Ptr>, head: Ptr, xs: seq<Ptr>)
    requires FreeLists(s, heads, lists) && level < |lists| && Relinked(s, t)
    requires forall p :: p in added ==> p in s && s[p].state.Free? && forall l :: 0 <= l < |lists| ==> p !in lists[l]
    requires forall p :: p in s && p !in lists[level] && p !in added ==> t[p] == s[p]
    requires ListOk(t, head, xs) && forall p :: p in xs ==> p in lists[level] || p in added
    ensures FreeLists(t, heads[level := head], lists[level := xs])
  {
    var ys := lists[level := xs];
    forall l | 0 <= l < |lists| && l != level ensures ListOk(t, heads[l], lists[l]) {
      ListFrame(s, t, heads[l], lists[l]);
    }
    forall l, p | 0 <= l < |ys| && p in ys[l] ensures p in t && t[p].state.Free? {
      assert p in s && SameBlock(s[p], t[p]);
    }
    ApartAfter(lists, level, xs, added);
  }

  class BuddyAllocator {
    var nodes: Store
    var root: Ptr
    var maxBlockSize: nat
    var freeLists: seq<Ptr>
    var nextAddress: Ptr
    ghost var lists: seq<seq<Ptr>>
    ghost const h: nat

    /** The links are sound and nothing but the links of the lists has been left inconsistent. */
    ghost predicate Linked(except: set<Ptr>)
      reads this
    {
      && maxBlockSize == Pow2(h) && maxBlockSize <= MAX_SIZE
      && nextAddress > NULL && (forall p :: p in nodes ==> p < nextAddress)
      && ListsOk(nodes, freeLists, lists)
      && ListsExact(nodes, lists, h, except)
    }

    ghost predicate Valid()
      reads this
    {
      Linked({}) && Tree(nodes, root, h) && Merged(nodes, root)
    }

    constructor (maxSize: nat)
      requires 0 < maxSize <= MAX_SIZE && IsPow2(maxSize)
      ensures Valid() && maxBlockSize == maxSize && Live(nodes) == {}
    {
      var levels := Log2(maxSize) + 1;
      maxBlockSize := maxSize;
      h := Log2(maxSize);
      root := 1;
      nextAddress := 2;
      nodes := map[1 := BuddyBlock(0, maxSize, NULL, NULL, Free, FreeLinks(NULL, NULL))];
      freeLists := seq(levels, i => if i == 0 then 1 else NULL);
      lists := seq(levels, i => if i == 0 then [1] else []);
      new;
      InitialOk(nodes, freeLists, lists, h);
    }

    /** `new BuddyBlock`: an address not in use. */
    method NewBlock(size: nat, offset: nat) returns (p: Ptr)
      requires nextAddress > NULL && (forall q :: q in nodes ==> q < nextAddress)
      modifies this`nodes, this`nextAddress
      ensures p != NULL && p !in old(nodes)
      ensures nodes == old(nodes)[p := BuddyBlock(offset, size, NULL, NULL, Free, FreeLinks(NULL, NULL))]
      ensures nextAddress > NULL && forall q :: q in nodes ==> q < nextAddress
    {
      p := nextAddress;
      nextAddress := nextAddress + 1;
      nodes := nodes[p := BuddyBlock(offset, size, NULL, NULL, Free, FreeLinks(NULL, NULL))];
    }

    method InsertFreeBlock(block: Ptr, level: nat)
      requires FreeLists(nodes, freeLists, lists) && level < |lists|
      requires block in nodes && nodes[block].state.Free? && block != NULL
      requires forall l :: 0 <= l < |lists| ==> block !in lists[l]
      modifies this`nodes, this`freeLists, this`lists
      ensures FreeLists(nodes, freeLists, lists) && Relinked(old(nodes), nodes)
      ensures lists == old(lists)[level := [block] + old(lists[level])] && freeLists[level] == block
    {
      ghost var s, heads := nodes, freeLists;
      LinkFrontOk(nodes, freeLists[level], lists[level], block);
      nodes := nodes[block := nodes[block].(links := FreeLinks(NULL, freeLists[level]))];
      if freeLists[level] != NULL {
        var head := freeLists[level];
        nodes := nodes[head := nodes[head].(links := nodes[head].links.(pPrev := block))];
      }
      OthersOk(s, nodes, heads, lists, level, {block}, block, [block] + lists[level]);
      freeLists := freeLists[level := block];
      lists := lists[level := [block] + lists[level]];
    }

    method RemoveFreeBlock(block: Ptr, level: nat, ghost k: nat)
      requires FreeLists(nodes, freeLists, lists) && level < |lists|
      requires k < |lists[level]| && lists[level][k] == block && block in nodes && nodes[block].state.Free?
      modifies this`nodes, this`freeLists, this`lists
      ensures FreeLists(nodes, freeLists, lists) && Relinked(old(nodes), nodes)
      ensures lists == old(lists)[level := Without(old(lists[level]), k)]
      ensures nodes[block] == old(nodes)[block]
    {
      ghost var s, heads, xs := nodes, freeLists, lists[level];
      assert ListOk(nodes, freeLists[level], xs);
      if freeLists[level] == block {
        TailOk(nodes, block, xs);
        freeLists := freeLists[level := nodes[block].links.pNext];
      } else {
        assert LinkOk(nodes, xs, k);
        var pPrev := nodes[block].links.pPrev;
        var pNext := nodes[block].links.pNext;
        BridgeOk(nodes, freeLists[level], xs, k, pPrev, pNext);
        nodes := nodes[pPrev := nodes[pPrev].(links := nodes[pPrev].links.(pNext := pNext))];
        if pNext != NULL {
          nodes := nodes[pNext := nodes[pNext].(links := nodes[pNext].links.(pPrev := pPrev))];
        }
      }
      OthersOk(s, nodes, heads, lists, level, {}, freeLists[level], Without(xs, k));
      assert freeLists == heads[level := freeLists[level]];
      lists := lists[level := Without(xs, k)];
    }

    /** The two halves of curr, linked to each other and to it but not to any list yet. */
    method NewChildren(curr: Ptr) returns (left: Ptr, right: Ptr)
      requires curr in nodes && nextAddress > NULL && (forall q :: q in nodes ==> q < nextAddress)
      modifies this`nodes, this`nextAddress
      ensures nextAddress > NULL && (forall q :: q in nodes ==> q < nextAddress)
      ensures left !in old(nodes) && right !in old(nodes) && left != right && left != NULL && right != NULL
      ensures nodes == WithChildren(old(nodes), curr, left, right)
    {
      var nextLevelSize := nodes[curr].size / 2;
      left := NewBlock(nextLevelSize, nodes[curr].offset);
      right := NewBlock(nextLevelSize, nodes[curr].offset + nextLevelSize);
      nodes := nodes[right := nodes[right].(pParent := curr, pBuddy := left)];
      nodes := nodes[left := nodes[left].(pParent := curr, pBuddy := right)];
      assert nodes == WithChildren(old(nodes), curr, left, right);
    }

    /** One turn of the loop of Allocate: the free head of a level becomes two free blocks. */
    method SplitBlock(curr: Ptr, level: nat) returns (left: Ptr)
      requires Linked({}) && Tree(nodes, root, h) && MergedExcept(nodes, root, curr)
      requires curr in nodes && nodes[curr].state.Free? && level < h && freeLists[level] == curr
      modifies this`nodes, this`freeLists, this`lists, this`nextAddress
      ensures Linked({}) && Tree(nodes, root, h) && MergedExcept(nodes, root, left)
      ensures left in nodes && nodes[left].state.Free? && freeLists[level + 1] == left
      ensures nodes[left].offset == old(nodes)[curr].offset && Live(nodes) == Live(old(nodes))
      ensures exists right :: AfterSplit(old(lists), lists, level, left, right)
    {
      ghost var s, xs := nodes, lists;
      SplitPre(s, freeLists, xs, root, h, curr, level);
      RemoveFreeBlock(curr, level, 0);
      ghost var s1 := nodes;
      var right;
      left, right := NewChildren(curr);
      ghost var s2 := nodes;
      ListsFrame(s1, s2, freeLists, lists);
      LinkChildren(curr, left, right, level + 1);
      SplitSteps(s, s1, nodes, xs, lists, root, h, curr, left, right, level);
      assert AfterSplit(xs, lists, level, left, right);
    }

    /** List the two children, the left one in front, and mark their parent as split. */
    method LinkChildren(curr: Ptr, left: Ptr, right: Ptr, level: nat)
      requires FreeLists(nodes, freeLists, lists) && level < |lists|
      requires curr in nodes && left in nodes && right in nodes && curr != left && curr != right && left != right
      requires nodes[left].state.Free? && nodes[right].state.Free? && left != NULL && right != NULL
      requires forall l :: 0 <= l < |lists| ==> left !in lists[l] && right !in lists[l] && curr !in lists[l]
      modifies this`nodes, this`freeLists, this`lists
      ensures lists == old(lists)[level := [left] + ([right] + old(lists[level]))]
      ensures FreeLists(nodes, freeLists, lists) && freeLists[level] == left
      ensures MarkedSplit(old(nodes), nodes, curr, left)
    {
      ghost var s, xs := nodes, lists;
      InsertFreeBlock(right, level);
      ghost var s1 := nodes;
      InsertFreeBlock(left, level);
      ghost var s2 := nodes;
      RelinkedTwice(s, s1, s2);
      assert SameBlock(s[curr], s2[curr]);
      nodes := nodes[curr := nodes[curr].(state := Split, links := SplitLink(left))];
      ListsFrame(s2, nodes, freeLists, lists);
    }

    /** One turn of the second loop of Deallocate: two free buddies become their free parent. */
    method MergeBlock(curr: Ptr, level: nat) returns (parent: Ptr)
      requires Linked({curr}) && Tree(nodes, root, h) && MergedExcept(nodes, root, curr)
      requires curr in nodes && curr != root && nodes[curr].state.Free? && Level(nodes, curr, h) == level
      requires nodes[curr].pBuddy in nodes && nodes[nodes[curr].pBuddy].state.Free?
      modifies this`nodes, this`freeLists, this`lists
      ensures Linked({parent}) && Tree(nodes, root, h) && MergedExcept(nodes, root, parent)
      ensures parent in nodes && nodes[parent].state.Free? && Level(nodes, parent, h) == level - 1
      ensures Live(nodes) == Live(old(nodes))
      ensures Within(old(nodes)[curr].offset, old(nodes)[curr].size, nodes[parent].offset, nodes[parent].size)
      ensures level < |old(lists)|
      ensures exists k :: 0 <= k < |old(lists)[level]| && lists == old(lists)[level := Without(old(lists)[level], k)]
    {
      ghost var s, xs := nodes, lists;
      var buddy := nodes[curr].pBuddy;
      ghost var k := MergePre(s, freeLists, xs, root, h, curr, level);
      RemoveFreeBlock(buddy, level, k);
      ghost var s1 := nodes;
      assert SameBlock(s[curr], s1[curr]);
      parent := nodes[curr].pParent;
      nodes := nodes - {buddy};
      nodes := nodes - {curr};
      nodes := nodes[parent := nodes[parent].(state := Free)];
      MergeSteps(s, s1, nodes, xs, lists, root, h, curr, level, k);
      ListsFrame(s1, nodes, freeLists, lists);
    }

    /** The lowest level, from the requested one upwards, whose first free block is aligned. */
    method GetNextFreeAlignedBlock(allocationBlockLevel: nat, alignment: nat) returns (r: nat)
      requires allocationBlockLevel < |freeLists| <= MAX_SIZE && alignment > 0
      requires forall l :: 0 <= l < |freeLists| && freeLists[l] != NULL ==> freeLists[l] in nodes
      ensures r == INVALID_OFFSET || r <= allocationBlockLevel
      ensures r != INVALID_OFFSET ==> Nearest(nodes, freeLists, allocationBlockLevel, alignment, r)
      ensures r == INVALID_OFFSET <==> SearchFails(nodes, freeLists, allocationBlockLevel, alignment)
      ensures Choice(nodes, freeLists, allocationBlockLevel, alignment) ==
        if r == INVALID_OFFSET then r else nodes[freeLists[r]].offset
    {
      var ii := 0;
      while ii <= allocationBlockLevel
        invariant ii <= allocationBlockLevel + 1
        invariant Choice(nodes, freeLists, allocationBlockLevel, alignment) ==
          Choice(nodes, freeLists, allocationBlockLevel - ii, alignment)
        invariant forall l :: allocationBlockLevel - ii < l <= allocationBlockLevel ==>
          !HeadFits(nodes, freeLists, l, alignment)
      {
        var currLevel := allocationBlockLevel - ii;
        var freeBlock := freeLists[currLevel];
        if freeBlock != NULL && nodes[freeBlock].offset % alignment == 0 {
          assert HeadFits(nodes, freeLists, currLevel, alignment);
          return currLevel;
        }
        ii := ii + 1;
      }
      assert SearchFails(nodes, freeLists, allocationBlockLevel, alignment);
      return INVALID_OFFSET;
    }

    lemma HeadsAreFree()
      requires Linked({})
      ensures |freeLists| == h + 1
      ensures forall l :: 0 <= l < |freeLists| && freeLists[l] != NULL ==>
        freeLists[l] in nodes && nodes[freeLists[l]].state.Free? && Level(nodes, freeLists[l], h) == l
      ensures forall l :: 0 <= l < |freeLists| && freeLists[l] == NULL ==> lists[l] == []
    {
      forall l | 0 <= l < |freeLists|
        ensures freeLists[l] != NULL ==>
          freeLists[l] in nodes && nodes[freeLists[l]].state.Free? && Level(nodes, freeLists[l], h) == l
        ensures freeLists[l] == NULL ==> lists[l] == []
      {
        assert ListOk(nodes, freeLists[l], lists[l]);
        HeadOk(nodes, freeLists[l], lists[l]);
        assert Listed(nodes, lists, h, {}, freeLists[l]);
      }
    }

    /** With an alignment no larger than the block, a search that fails means there is no room. */
    lemma SearchDecides(alignment: nat, k: nat)
      requires Valid() && IsPow2(alignment) && alignment <= Pow2(k) && k <= h && |freeLists| == h + 1
      ensures SearchFails(nodes, freeLists, h - k, alignment) <==> NoRoom(Live(nodes), h, Pow2(k))
    {
      RoomIffFreeBlock(nodes, root, h, k);
      if l :| 0 <= l <= h - k && HeadFits(nodes, freeLists, l, alignment) {
        HeadIsLarge(l, k);
      }
      if p :| p in nodes && nodes[p].state.Free? && Pow2(k) <= nodes[p].size {
        LargeBlockIsFound(p, alignment, k);
      }
    }

    /** Aligned room is missed exactly when no list head in reach is aligned but some free block is; all the
        free blocks in reach are then smaller than the alignment. */
    lemma MissedExactly(alignment: nat, k: nat)
      requires Valid() && IsPow2(alignment) && k <= h && |freeLists| == h + 1
      ensures SearchFails(nodes, freeLists, h - k, alignment) && AlignedRoom(Live(nodes), h, Pow2(k), alignment) <==>
        && (forall l :: 0 <= l <= h - k ==> !HeadFits(nodes, freeLists, l, alignment))
        && (exists p :: AlignedBlock(nodes, p, Pow2(k), alignment))
      ensures SearchFails(nodes, freeLists, h - k, alignment) ==>
        forall p :: p in nodes && nodes[p].state.Free? && Pow2(k) <= nodes[p].size ==> nodes[p].size < alignment
    {
      AlignedRoomExactly(nodes, root, h, k, alignment);
      if SearchFails(nodes, freeLists, h - k, alignment) {
        forall p | p in nodes && nodes[p].state.Free? && Pow2(k) <= nodes[p].size ensures nodes[p].size < alignment {
          if alignment <= nodes[p].size { LargeBlockIsFound(p, alignment, k); }
        }
      }
    }

    /** Where the alignment is no larger than the request, the nearest level has the smallest blocks. */
    lemma NearestIsSmallest(alignment: nat, k: nat, r: nat)
      requires Valid() && IsPow2(alignment) && alignment <= Pow2(k) && k <= h && |freeLists| == h + 1
      requires Nearest(nodes, freeLists, h - k, alignment, r)
      ensures Smallest(nodes, freeLists[r], Pow2(k))
    {
      HeadIsLarge(r, k);
      HeadsAreFree();
      forall q | q in nodes && nodes[q].state.Free? && Pow2(k) <= nodes[q].size
        ensures nodes[freeLists[r]].size <= nodes[q].size
      {
        LargeBlockIsFound(q, alignment, k);
        assert NodeOk(nodes, root, h, q) && NodeOk(nodes, root, h, freeLists[r]);
        LowerIsSmaller(nodes, freeLists[r], q, h);
      }
    }

    lemma LargeBlockIsFound(p: Ptr, alignment: nat, k: nat)
      requires Valid() && IsPow2(alignment) && k <= h && |freeLists| == h + 1
      requires p in nodes && nodes[p].state.Free? && Pow2(k) <= nodes[p].size && alignment <= nodes[p].size
      ensures 0 <= Level(nodes, p, h) <= h - k && HeadFits(nodes, freeLists, Level(nodes, p, h), alignment)
      ensures !SearchFails(nodes, freeLists, h - k, alignment)
    {
      assert NodeOk(nodes, root, h, p) && Listed(nodes, lists, h, {}, p);
      Log2OfPow2(k);
      Log2Monotone(Pow2(k), nodes[p].size);
      var l := Level(nodes, p, h);
      assert p in lists[l];
      HeadsAreFree();
      var head := freeLists[l];
      assert NodeOk(nodes, root, h, head);
      AlignedToLess(nodes[head].offset, nodes[head].size, alignment);
      assert HeadFits(nodes, freeLists, l, alignment);
    }

    lemma HeadIsLarge(l: nat, k: nat)
      requires Valid() && l < |freeLists| == h + 1 && l <= h - k && freeLists[l] != NULL
      ensures freeLists[l] in nodes && nodes[freeLists[l]].state.Free? && Pow2(k) <= nodes[freeLists[l]].size
    {
      HeadsAreFree();
      assert NodeOk(nodes, root, h, freeLists[l]);
      Pow2Monotone(k, h - l);
    }

    /** The last step of Allocate: the free head of a level becomes an allocation. */
    method TakeHead(curr: Ptr, level: nat)
      requires Linked({}) && Tree(nodes, root, h) && MergedExcept(nodes, root, curr)
      requires curr in nodes && nodes[curr].state.Free? && level <= h && freeLists[level] == curr
      modifies this`nodes, this`freeLists, this`lists
      ensures Valid() && curr in nodes && nodes[curr].offset == old(nodes)[curr].offset
      ensures level < |old(lists)| && old(lists)[level] != []
      ensures lists == old(lists)[level := old(lists)[level][1..]]
      ensures Live(nodes) == Live(old(nodes)) + {Block(nodes[curr].offset, Pow2(h - level))}
      ensures Room(Live(old(nodes)), h, nodes[curr].offset, Pow2(h - level))
    {
      ghost var s, xs := nodes, lists;
      HeadsAreFree();
      ExactFree(s, freeLists, lists, h, {});
      assert NodeOk(s, root, h, curr) && ListOk(s, curr, xs[level]);
      HeadOk(s, curr, lists[level]);
      assert xs[level] != [] && Without(xs[level], 0) == xs[level][1..];
      FreeBlockIsRoom(s, root, h, curr, h - level);
      RemoveFreeBlock(curr, level, 0);
      ghost var s1 := nodes;
      nodes := nodes[curr := nodes[curr].(state := Allocated)];
      TakeOk(s, s1, nodes, xs, lists, root, h, curr, level);
      ListsFrame(s1, nodes, freeLists, lists);
    }

    method Allocate(allocationSize: nat, alignment: nat) returns (offset: nat)
      requires Valid() && IsPow2(alignment)
      modifies this`nodes, this`freeLists, this`lists, this`nextAddress
      ensures Valid()
      ensures offset != INVALID_OFFSET ==>
        && 0 < allocationSize <= maxBlockSize && offset % alignment == 0
        && Room(old(Live(nodes)), h, offset, BlockSize(allocationSize))
        && Live(nodes) == old(Live(nodes)) + {Block(offset, BlockSize(allocationSize))}
      ensures offset == INVALID_OFFSET ==>
        && nodes == old(nodes) && freeLists == old(freeLists) && lists == old(lists)
      ensures 0 < allocationSize <= maxBlockSize ==>
        && Log2(allocationSize) <= h < |old(freeLists)|
        && offset == old(Choice(nodes, freeLists, h - Log2(allocationSize), alignment))
        && (offset != INVALID_OFFSET ==>
          AtNearest(old(nodes), old(freeLists), old(lists), lists, h - Log2(allocationSize), alignment, offset))
        && (offset == INVALID_OFFSET <==> old(SearchFails(nodes, freeLists, h - Log2(allocationSize), alignment)))
      ensures alignment <= allocationSize && IsPow2(allocationSize) ==>
        (offset == INVALID_OFFSET <==> NoRoom(old(Live(nodes)), h, allocationSize))
      ensures offset != INVALID_OFFSET && alignment <= BlockSize(allocationSize) ==>
        BestFit(old(nodes), BlockSize(allocationSize), offset)
    {
      if allocationSize == 0 || allocationSize > maxBlockSize {
        return INVALID_OFFSET;
      }
      LevelOfRequest(allocationSize, h);
      var allocationSizeToLevel := Log2(maxBlockSize) - Log2(allocationSize);
      HeadsAreFree();
      OrderBelowSize(h);
      var currBlockLevel := GetNextFreeAlignedBlock(allocationSizeToLevel, alignment);
      if alignment <= BlockSize(allocationSize) {
        SearchDecides(alignment, Log2(allocationSize));
      }
      if currBlockLevel == INVALID_OFFSET {
        return INVALID_OFFSET;
      }
      if alignment <= BlockSize(allocationSize) {
        NearestIsSmallest(alignment, Log2(allocationSize), currBlockLevel);
      }
      var currBlock := SplitDown(currBlockLevel, allocationSizeToLevel);
      TakeHead(currBlock, allocationSizeToLevel);
      offset := nodes[currBlock].offset;
    }

    lemma StartSplitting(from: nat)
      requires Linked({}) && from < |freeLists| && freeLists[from] != NULL
      ensures SplitFrom(lists, lists, from, from)
    {
      HeadsAreFree();
      assert ListOk(nodes, freeLists[from], lists[from]);
    }

    /** The loop of Allocate: split the head of a level until there is a free block of the level below. */
    method SplitDown(from: nat, level: nat) returns (currBlock: Ptr)
      requires Valid() && from <= level <= h && |freeLists| == h + 1 && freeLists[from] != NULL
      requires freeLists[from] in nodes && nodes[freeLists[from]].state.Free?
      modifies this`nodes, this`freeLists, this`lists, this`nextAddress
      ensures Linked({}) && Tree(nodes, root, h) && MergedExcept(nodes, root, currBlock)
      ensures currBlock in nodes && nodes[currBlock].state.Free? && freeLists[level] == currBlock
      ensures nodes[currBlock].offset == old(nodes[freeLists[from]].offset) && Live(nodes) == old(Live(nodes))
      ensures SplitFrom(old(lists), lists, from, level)
    {
      StartSplitting(from);
      currBlock := freeLists[from];
      var currBlockLevel := from;
      MergedAnywhere(nodes, root, h, currBlock);
      while currBlockLevel < level
        invariant currBlockLevel <= level
        invariant Linked({}) && Tree(nodes, root, h) && MergedExcept(nodes, root, currBlock)
        invariant currBlock in nodes && nodes[currBlock].state.Free? && freeLists[currBlockLevel] == currBlock
        invariant nodes[currBlock].offset == old(nodes[freeLists[from]].offset) && Live(nodes) == old(Live(nodes))
        invariant SplitFrom(old(lists), lists, from, currBlockLevel)
      {
        ghost var ys := lists;
        currBlock := SplitBlock(currBlock, currBlockLevel);
        ghost var right :| AfterSplit(ys, lists, currBlockLevel, currBlock, right);
        SplitOnce(old(lists), ys, lists, from, currBlockLevel, currBlock, right);
        currBlockLevel := currBlockLevel + 1;
      }
    }

    /** The descent of Deallocate: it ends at the allocation that starts at the offset. */
    method FindAllocation(offset: nat, ghost target: Ptr) returns (curr: Ptr, level: nat)
      requires Valid() && target in nodes && nodes[target].state.Allocated? && nodes[target].offset == offset
      ensures curr == target && level == Level(nodes, curr, h)
    {
      assert NodeOk(nodes, root, h, root) && NodeOk(nodes, root, h, target);
      TopLevelIsRoot(nodes, root, h, root);
      curr, level := root, 0;
      while nodes[curr].state.Split?
        invariant curr in nodes && Inside(nodes, target, curr) && level == Level(nodes, curr, h)
        decreases nodes[curr].size
      {
        Descend(nodes, root, h, target, curr);
        if offset < nodes[nodes[nodes[curr].links.pLeft].pBuddy].offset {
          curr := nodes[curr].links.pLeft;
        } else {
          curr := nodes[nodes[curr].links.pLeft].pBuddy;
        }
        level := level + 1;
      }
      if curr != target { ContainerIsSplit(nodes, root, h, target, curr); }
    }

    method Deallocate(offset: nat)
      requires Valid() && exists b :: b in Live(nodes) && b.offset == offset
      modifies this`nodes, this`freeLists, this`lists
      ensures Valid()
      ensures forall b :: b in old(Live(nodes)) && b.offset == offset ==> Live(nodes) == old(Live(nodes)) - {b}
      ensures BackAtFront(nodes, freeLists, old(lists), lists, h, offset)
    {
      ghost var b :| b in Live(nodes) && b.offset == offset;
      ghost var target :| target in nodes && nodes[target].state.Allocated? && BlockOf(nodes[target]) == b;
      OneLiveAt(nodes, root, h, offset, b);
      var curr, currBlockLevel := FindAllocation(offset, target);
      ReleaseOk(nodes, nodes[curr := nodes[curr].(state := Free)], freeLists, lists, root, h, curr);
      nodes := nodes[curr := nodes[curr].(state := Free)];
      MergeUp(curr, currBlockLevel);
    }

    /** The second loop of Deallocate, and its end: c is free but not listed. */
    method MergeUp(c: Ptr, level: nat)
      requires Linked({c}) && Tree(nodes, root, h) && MergedExcept(nodes, root, c)
      requires c in nodes && nodes[c].state.Free? && level == Level(nodes, c, h)
      modifies this`nodes, this`freeLists, this`lists
      ensures Valid() && Live(nodes) == old(Live(nodes))
      ensures old(nodes)[c].size > 0
      ensures BackAtFront(nodes, freeLists, old(lists), lists, h, old(nodes)[c].offset)
    {
      ghost var b := nodes[c];
      assert NodeOk(nodes, root, h, c);
      var curr, currBlockLevel: int := c, level;
      BuddyKnown(curr);
      while currBlockLevel > 0 && nodes[nodes[curr].pBuddy].state.Free?
        invariant Linked({curr}) && Tree(nodes, root, h) && MergedExcept(nodes, root, curr)
        invariant curr in nodes && nodes[curr].state.Free? && currBlockLevel == Level(nodes, curr, h)
        invariant 0 <= currBlockLevel && (currBlockLevel == 0 <==> curr == root)
        invariant curr != root ==> nodes[curr].pBuddy in nodes
        invariant Live(nodes) == old(Live(nodes))
        invariant Within(b.offset, b.size, nodes[curr].offset, nodes[curr].size)
        invariant MergedFrom(old(lists), lists, currBlockLevel)
      {
        ghost var ys := lists;
        curr := MergeBlock(curr, currBlockLevel);
        MergedOnce(old(lists), ys, lists, currBlockLevel);
        currBlockLevel := currBlockLevel - 1;
        BuddyKnown(curr);
      }
      ghost var ys := lists;
      Relist(curr, currBlockLevel);
      assert freeLists[currBlockLevel] == curr;
      BackInList(old(lists), ys, lists, currBlockLevel, curr);
      assert HeadAround(nodes, freeLists, h, currBlockLevel, b.offset);
    }

    lemma BuddyKnown(p: Ptr)
      requires Tree(nodes, root, h) && p in nodes
      ensures p != root ==> nodes[p].pBuddy in nodes
      ensures 0 <= Level(nodes, p, h) <= h && (Level(nodes, p, h) == 0 <==> p == root)
    {
      TopLevelIsRoot(nodes, root, h, p);
      if p != root { var q := ParentFacts(nodes, root, h, p); }
    }

    /** The last step of Deallocate. */
    method Relist(curr: Ptr, level: nat)
      requires Linked({curr}) && Tree(nodes, root, h) && MergedExcept(nodes, root, curr)
      requires curr in nodes && nodes[curr].state.Free? && level == Level(nodes, curr, h) <= h
      requires curr != root ==> nodes[curr].pBuddy in nodes && !nodes[nodes[curr].pBuddy].state.Free?
      modifies this`nodes, this`freeLists, this`lists
      ensures Valid() && Live(nodes) == Live(old(nodes))
      ensures level < |freeLists| && freeLists[level] == curr && curr in nodes
      ensures level < |old(lists)| && lists == old(lists)[level := [curr] + old(lists)[level]]
      ensures SameBlock(old(nodes)[curr], nodes[curr])
    {
      ghost var s, xs := nodes, lists;
      ExactFree(s, freeLists, lists, h, {curr});
      assert NodeOk(s, root, h, curr) && Listed(s, lists, h, {curr}, curr);
      InsertFreeBlock(curr, level);
      RelistOk(s, nodes, xs, lists, root, h, curr, level);
    }
  }

  /** Giving back what was just taken restores every block and its state. */
  method AllocateThenDeallocate(a: BuddyAllocator, size: nat, alignment: nat)
    requires a.Valid() && IsPow2(alignment)
    modifies a
    ensures a.Valid() && Live(a.nodes) == old(Live(a.nodes))
    ensures forall b, state :: Has(a.nodes, b, state) <==> old(Has(a.nodes, b, state))
  {
    ghost var s, root := a.nodes, a.root;
    var offset := a.Allocate(size, alignment);
    if offset != INVALID_OFFSET {
      ghost var taken := Block(offset, BlockSize(size));
      assert taken in Live(a.nodes);
      assert Overlap(taken.offset, taken.size, offset, BlockSize(size)) && taken !in Live(s);
      a.Deallocate(offset);
      assert Live(a.nodes) == Live(s);
    }
    forall b, state ensures Has(a.nodes, b, state) <==> Has(s, b, state) {
      DeterminedByLive(s, root, a.nodes, a.root, a.h, b, state);
    }
  }

  /** Freeing everything, in any order, leaves the single free root block. */
  method FreeEverything(a: BuddyAllocator, offsets: seq<nat>)
    requires a.Valid()
    requires forall b :: b in Live(a.nodes) ==> b.offset in offsets
    requires forall i :: 0 <= i < |offsets| ==> exists b :: b in Live(a.nodes) && b.offset == offsets[i]
    requires forall i, j :: 0 <= i < j < |offsets| ==> offsets[i] != offsets[j]
    modifies a
    ensures a.Valid() && a.nodes.Keys == {a.root} && a.nodes[a.root].state.Free?
  {
    for n := 0 to |offsets|
      invariant a.Valid()
      invariant forall b :: b in Live(a.nodes) <==> b in old(Live(a.nodes)) && b.offset !in offsets[..n]
    {
      ghost var b :| b in old(Live(a.nodes)) && b.offset == offsets[n];
      assert b in Live(a.nodes);
      OneLiveAt(old(a.nodes), old(a.root), a.h, offsets[n], b);
      a.Deallocate(offsets[n]);
      assert offsets[..n + 1] == offsets[..n] + [offsets[n]];
    }
    assert offsets[..|offsets|] == offsets;
    EmptyIsRoot(a.nodes, a.root, a.h);
  }

  lemma SmallPowers()
    ensures Pow2(0) == 1 && Pow2(1) == 2 && Pow2(2) == 4
    ensures Log2(1) == 0 && Log2(2) == 1 && Log2(4) == 2
  {
    Log2OfPow2(0);
    Log2OfPow2(1);
    Log2OfPow2(2);
  }

  // Alignments above the size.

  /** The unit at o. */
  function Unit(o: nat): (b: Block) {
    Block(o, 1)
  }

  const UNITS: set<Block> := {Unit(0), Unit(1), Unit(2), Unit(3)}

  /** While not all four units are live, one is free. */
  lemma UnitLeft(live: set<Block>)
    requires live <= UNITS && |live| < 4
    ensures !NoRoom(live, 2, 1)
  {
    SmallPowers();
    assert live != UNITS;
    var b :| b in UNITS && b !in live;
    assert Room(live, 2, b.offset, 1);
  }

  lemma AllUnits(live: set<Block>)
    requires live <= UNITS && |live| == 4
    ensures live == UNITS
  {
    assert |UNITS - live| == 0;
  }

  /** Four allocations of one unit fill an allocator of size 4. */
  method FillUnits() returns (a: BuddyAllocator)
    ensures fresh(a) && a.Valid() && a.h == 2 && Live(a.nodes) == UNITS
  {
    SmallPowers();
    a := new BuddyAllocator(4);
    Log2OfPow2(a.h);
    for i := 0 to 4
      invariant fresh(a) && a.Valid() && a.h == 2 && Live(a.nodes) <= UNITS && |Live(a.nodes)| == i
    {
      AllocateUnit(a);
    }
    AllUnits(Live(a.nodes));
  }

  method AllocateUnit(a: BuddyAllocator)
    requires a.Valid() && a.h == 2 && Live(a.nodes) <= UNITS && |Live(a.nodes)| < 4
    modifies a
    ensures a.Valid() && Live(a.nodes) <= UNITS && |Live(a.nodes)| == |old(Live(a.nodes))| + 1
  {
    SmallPowers();
    UnitLeft(Live(a.nodes));
    ghost var live := Live(a.nodes);
    var offset := a.Allocate(1, 1);
    assert Overlap(offset, 1, offset, 1) && Unit(offset) !in live;
  }

  /** With units 0 and 3 live, the free blocks are the units 1 and 2. */
  lemma MiddleFree(s: Store, root: Ptr, p: Ptr)
    requires Tree(s, root, 2) && Live(s) == {Unit(0), Unit(3)} && p in s && s[p].state.Free?
    ensures s[p].size == 1 && 1 <= s[p].offset <= 2
  {
    SmallPowers();
    assert NodeOk(s, root, 2, p);
    ClearOfFree(s, root, 2, p, s[p].size);
    assert Unit(0) in Live(s) && Unit(3) in Live(s);
  }

  /** The unit at 2 is free and 2-aligned, but the one at 1 was freed last and is listed first: a request
      for one unit with alignment 2 fails. */
  method MisalignedHeadHidesRoom() returns (a: BuddyAllocator, offset: nat)
    ensures fresh(a) && a.Valid() && offset == INVALID_OFFSET && AlignedRoom(Live(a.nodes), a.h, 1, 2)
  {
    SmallPowers();
    a := FillUnits();
    assert Unit(2) in Live(a.nodes);
    a.Deallocate(2);
    assert Unit(1) in Live(a.nodes);
    a.Deallocate(1);
    assert Live(a.nodes) == {Unit(0), Unit(3)};
    UnitOneFirst(a);
    assert Room(Live(a.nodes), a.h, 2, 1) && 2 % 2 == 0;
    offset := a.Allocate(1, 2);
  }

  lemma UnitOneFirst(a: BuddyAllocator)
    requires a.Valid() && a.h == 2 && Live(a.nodes) == {Unit(0), Unit(3)}
    requires exists l: nat :: HeadAround(a.nodes, a.freeLists, 2, l, 1)
    ensures SearchFails(a.nodes, a.freeLists, 2, 2)
  {
    SmallPowers();
    a.HeadsAreFree();
    var l: nat :| HeadAround(a.nodes, a.freeLists, 2, l, 1);
    MiddleFree(a.nodes, a.root, a.freeLists[l]);
    forall m | 0 <= m <= 2 && m < |a.freeLists| ensures !HeadFits(a.nodes, a.freeLists, m, 2) {
      if a.freeLists[m] != NULL { MiddleFree(a.nodes, a.root, a.freeLists[m]); }
    }
  }
}
