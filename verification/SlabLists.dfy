/** The doubly linked slab lists of src/common/SlabAllocator: each starts at a sentinel slab. */
module SlabLists {
  import opened PointerLists

  type Addr = nat
  const NULL: Addr := 0

  datatype Slab = Slab(freeList: Addr, prev: Addr, next: Addr, blocksInUse: nat)
  type SlabStore = map<Addr, Slab>

  function Before(sentinel: Addr, xs: seq<Addr>, i: nat): (p: Addr)
    requires i <= |xs|
  {
    if i == 0 then sentinel else xs[i - 1]
  }

  function After(xs: seq<Addr>, i: nat): (p: Addr) {
    if i < |xs| then xs[i] else NULL
  }

  ghost predicate LinkOk(s: SlabStore, sentinel: Addr, xs: seq<Addr>, i: nat)
    requires i < |xs|
  {
    && xs[i] in s && xs[i] != NULL && xs[i] != sentinel
    && s[xs[i]].prev == Before(sentinel, xs, i) && s[xs[i]].next == After(xs, i + 1)
  }

  /** xs is the list that hangs off the sentinel. */
  ghost predicate ListOk(s: SlabStore, sentinel: Addr, xs: seq<Addr>) {
    && sentinel in s && sentinel != NULL && s[sentinel].next == After(xs, 0) && Distinct(xs)
    && forall i {:trigger LinkOk(s, sentinel, xs, i)} :: 0 <= i < |xs| ==> LinkOk(s, sentinel, xs, i)
  }

  /** Only list links differ. */
  ghost predicate Relinked(s: SlabStore, t: SlabStore) {
    s.Keys == t.Keys && forall p {:trigger t[p]} :: p in s ==> t[p] == s[p].(prev := t[p].prev, next := t[p].next)
  }

  lemma ListFrame(s: SlabStore, t: SlabStore, sentinel: Addr, xs: seq<Addr>)
    requires ListOk(s, sentinel, xs)
    requires forall p :: p in s && (p == sentinel || p in xs) ==>
      p in t && t[p].prev == s[p].prev && t[p].next == s[p].next
    ensures ListOk(t, sentinel, xs)
  {
    forall i | 0 <= i < |xs| ensures LinkOk(t, sentinel, xs, i) {
      assert LinkOk(s, sentinel, xs, i) && xs[i] in xs;
    }
  }

  lemma MemberOk(s: SlabStore, sentinel: Addr, xs: seq<Addr>, p: Addr)
    requires ListOk(s, sentinel, xs) && p in xs
    ensures p in s && p != NULL && p != sentinel
  {
    var i :| 0 <= i < |xs| && xs[i] == p;
    assert LinkOk(s, sentinel, xs, i);
  }

  /** Slab::Splice takes a slab out of whatever list it is in. */
  function Splice(s: SlabStore, slab: Addr): (t: SlabStore)
    requires slab in s && s[slab].prev in s && s[slab].prev != slab
    requires s[slab].next != NULL ==> s[slab].next in s && s[slab].next != slab && s[slab].next != s[slab].prev
  {
    var originalPrev, originalNext := s[slab].prev, s[slab].next;
    var s1 := s[slab := s[slab].(prev := NULL, next := NULL)];
    var s2 := if originalNext != NULL then s1[originalNext := s1[originalNext].(prev := originalPrev)] else s1;
    s2[originalPrev := s2[originalPrev].(next := originalNext)]
  }

  lemma SpliceOk(s: SlabStore, sentinel: Addr, xs: seq<Addr>, k: nat)
    requires ListOk(s, sentinel, xs) && k < |xs|
    ensures xs[k] in s && s[xs[k]].prev in s && s[xs[k]].prev != xs[k]
    ensures s[xs[k]].prev == sentinel || s[xs[k]].prev in xs
    ensures s[xs[k]].next != NULL ==>
      s[xs[k]].next in s && s[xs[k]].next in xs && s[xs[k]].next != xs[k] && s[xs[k]].next != s[xs[k]].prev
    ensures var t := Splice(s, xs[k]);
      && ListOk(t, sentinel, Without(xs, k)) && Relinked(s, t)
      && forall p :: p in s && p != sentinel && p !in xs ==> t[p] == s[p]
  {
    assert LinkOk(s, sentinel, xs, k);
    if k > 0 { assert LinkOk(s, sentinel, xs, k - 1); }
    if k + 1 < |xs| { assert LinkOk(s, sentinel, xs, k + 1); }
    var t, ys := Splice(s, xs[k]), Without(xs, k);
    forall i | 0 <= i < |ys| ensures LinkOk(t, sentinel, ys, i) {
      var j := if i < k then i else i + 1;
      assert LinkOk(s, sentinel, xs, j) && ys[i] == xs[j];
    }
    assert Distinct(ys);
  }

  /** SentinelSlab::Prepend. */
  function Prepend(s: SlabStore, sentinel: Addr, slab: Addr): (t: SlabStore)
    requires sentinel in s && slab in s && slab != sentinel
    requires s[sentinel].next != NULL ==>
      s[sentinel].next in s && s[sentinel].next != slab && s[sentinel].next != sentinel
  {
    var first := s[sentinel].next;
    var s1 := if first != NULL then s[first := s[first].(prev := slab)] else s;
    var s2 := s1[slab := s1[slab].(prev := sentinel, next := first)];
    s2[sentinel := s2[sentinel].(next := slab)]
  }

  lemma PrependOk(s: SlabStore, sentinel: Addr, xs: seq<Addr>, slab: Addr)
    requires ListOk(s, sentinel, xs) && slab in s && slab != sentinel && slab != NULL && slab !in xs
    ensures s[sentinel].next != NULL ==>
      s[sentinel].next in s && s[sentinel].next != slab && s[sentinel].next != sentinel
    ensures var t := Prepend(s, sentinel, slab);
      && ListOk(t, sentinel, [slab] + xs) && Relinked(s, t)
      && forall p :: p in s && p != sentinel && p != slab && p !in xs ==> t[p] == s[p]
  {
    if xs != [] { assert LinkOk(s, sentinel, xs, 0); }
    var t, ys := Prepend(s, sentinel, slab), [slab] + xs;
    forall i | 0 <= i < |ys| ensures LinkOk(t, sentinel, ys, i) {
      if i > 0 { assert LinkOk(s, sentinel, xs, i - 1) && ys[i] == xs[i - 1]; }
    }
    assert Distinct(ys);
  }

  /** GetNewSlab moves the whole recycled list under the available sentinel by swapping next pointers. */
  function Swap(s: SlabStore, a: Addr, r: Addr): (t: SlabStore)
    requires a in s && r in s && a != r && s[r].next in s && s[r].next != a && s[r].next != r
  {
    var first := s[r].next;
    var s1 := s[a := s[a].(next := first)][r := s[r].(next := s[a].next)];
    s1[first := s1[first].(prev := a)]
  }

  lemma SwapOk(s: SlabStore, a: Addr, r: Addr, xs: seq<Addr>)
    requires ListOk(s, a, []) && ListOk(s, r, xs) && xs != [] && a != r && a !in xs
    ensures s[r].next in s && s[r].next != a && s[r].next != r
    ensures var t := Swap(s, a, r);
      && ListOk(t, a, xs) && ListOk(t, r, []) && Relinked(s, t)
      && forall p :: p in s && p != a && p != r && p !in xs ==> t[p] == s[p]
  {
    assert LinkOk(s, r, xs, 0);
    var t := Swap(s, a, r);
    forall i | 0 <= i < |xs| ensures LinkOk(t, a, xs, i) {
      assert LinkOk(s, r, xs, i) && xs[i] in xs;
    }
  }
}
