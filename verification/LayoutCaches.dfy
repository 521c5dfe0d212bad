/** The content caches of bind group layouts and pipeline layouts: src/dawn_native/Device.cpp and
    PipelineLayout.cpp. An object pointer is a key of a store, a reference is counted, and a cache is the
    set of the pointers in it. */
module LayoutCaches {
  import opened Wrappers
  import opened BindGroupLayouts
  import opened References

  type Id = int
  const MAX_BIND_GROUPS: nat := 4

  datatype Bgl = Bgl(refs: nat, layout: Layout)
  /** The mask of a pipeline layout is the first |groups| bits. */
  datatype Pl = Pl(refs: nat, groups: seq<Id>)
  type Bgls = map<Id, Bgl>
  type Pls = map<Id, Pl>

  /** The references that pipeline layouts hold to a bind group layout. */
  function Edges(pls: Pls, b: Id): (r: set<(Id, int)>) {
    set p, i | p in pls && 0 <= i < |pls[p].groups| && pls[p].groups[i] == b :: (p, i)
  }

  ghost predicate BglOk(bgls: Bgls, pls: Pls, extern: map<Id, nat>, extra: Id, b: Id) {
    b in bgls && 0 < bgls[b].refs == Held(extern, b) + |Edges(pls, b)| + if b == extra then 1 else 0
  }

  predicate GroupsLive(bgls: Bgls, groups: seq<Id>) {
    forall i :: 0 <= i < |groups| ==> groups[i] in bgls
  }

  /** Bind group layouts live as long as they are referred to; `extra` is a reference about to go. */
  ghost predicate StoreOk(bgls: Bgls, pls: Pls, extern: map<Id, nat>, extra: Id, bound: Id) {
    && 0 <= bound && InBounds(bgls.Keys, bound) && InBounds(pls.Keys, bound) && HeldLive(extern, bgls.Keys, bound)
    && (extra == NONE || extra in bgls)
    && (forall b {:trigger BglOk(bgls, pls, extern, extra, b)} :: b in bgls ==> BglOk(bgls, pls, extern, extra, b))
    && (forall p {:trigger pls[p]} :: p in pls ==> GroupsLive(bgls, pls[p].groups))
  }

  type Contents = map<Id, Content>

  ghost predicate Means(bgls: Bgls, contents: Contents, b: Id) {
    b in bgls && b in contents && Represents(bgls[b].layout, contents[b])
  }

  /** The layouts represent what was asked for, and no two live ones the same. */
  ghost predicate ContentsOk(bgls: Bgls, contents: Contents) {
    && (forall b {:trigger Means(bgls, contents, b)} :: b in bgls ==> Means(bgls, contents, b))
    && (forall a, b :: a in bgls && b in bgls && a in contents && b in contents && a != b ==>
          contents[a] != contents[b])
  }

  ghost predicate PlCountOk(pls: Pls, extern: map<Id, nat>, p: Id) {
    p in pls && 0 < pls[p].refs == Held(extern, p)
  }

  /** Only the application refers to pipeline layouts, and no two in the cache are equal. */
  ghost predicate PlsOk(pls: Pls, cache: set<Id>, extern: map<Id, nat>, bound: Id) {
    && (forall p {:trigger PlCountOk(pls, extern, p)} :: p in cache ==> PlCountOk(pls, extern, p))
    && (forall p, q :: p in cache && q in cache && p in pls && q in pls && p != q ==> pls[p].groups != pls[q].groups)
    && InBounds(extern.Keys, bound)
  }

  /** The application takes or gives up references to p, but not the last one. */
  lemma PlCounted(pls: Pls, cache: set<Id>, extern: map<Id, nat>, bound: Id, p: Id, refs: nat)
    requires PlsOk(pls, cache, extern, bound) && p in cache && p in pls && refs > 0 && 0 <= p < bound
    ensures PlsOk(pls[p := Pl(refs, pls[p].groups)], cache, extern[p := refs], bound)
  {
    forall q | q in cache
      ensures PlCountOk(pls[p := Pl(refs, pls[p].groups)], extern[p := refs], q)
    {
      assert PlCountOk(pls, extern, q);
    }
  }

  lemma PlAdded(pls: Pls, cache: set<Id>, extern: map<Id, nat>, n: Id, groups: seq<Id>)
    requires PlsOk(pls, cache, extern, n) && n !in cache && 0 <= n && forall p :: p in cache && p in pls ==>
      pls[p].groups != groups
    ensures Held(extern, n) == 0 && PlsOk(pls[n := Pl(1, groups)], cache + {n}, extern[n := 1], n + 1)
  {
    forall q | q in cache + {n}
      ensures PlCountOk(pls[n := Pl(1, groups)], extern[n := 1], q)
    {
      assert q != n ==> PlCountOk(pls, extern, q);
    }
  }

  lemma PlRemoved(pls: Pls, cache: set<Id>, extern: map<Id, nat>, bound: Id, p: Id)
    requires PlsOk(pls, cache, extern, bound) && p in cache && 0 <= p < bound
    ensures PlsOk(pls - {p}, cache - {p}, extern[p := 0], bound)
    ensures p in pls && (set q | q in cache && q in pls && pls[q].groups == pls[p].groups) == {p}
  {
    assert PlCountOk(pls, extern, p);
    var equals := set q | q in cache && q in pls && pls[q].groups == pls[p].groups;
    assert p in equals;
    forall q | q in cache && q in pls && q != p ensures pls[q].groups != pls[p].groups {}
    assert equals == {p};
    forall q | q in cache - {p} ensures PlCountOk(pls - {p}, extern[p := 0], q) { assert PlCountOk(pls, extern, q); }
  }

  // Counting references.

  lemma EdgeAdded(pls: Pls, p: Id, b: Id, c: Id)
    requires p in pls
    ensures |Edges(pls[p := Pl(pls[p].refs, pls[p].groups + [b])], c)| == |Edges(pls, c)| + if c == b then 1 else 0
  {
    var pls' := pls[p := Pl(pls[p].refs, pls[p].groups + [b])];
    var e := (p, |pls[p].groups|);
    assert e !in Edges(pls, c);
    forall x: (Id, int) ensures x in Edges(pls', c) <==> x in Edges(pls, c) || (c == b && x == e) {
      var (q, i) := x;
    }
    assert Edges(pls', c) == Edges(pls, c) + if c == b then {e} else {};
  }

  lemma EdgeRemoved(pls: Pls, p: Id, c: Id)
    requires p in pls && pls[p].groups != []
    ensures var n := |pls[p].groups| - 1;
      var pls' := pls[p := Pl(pls[p].refs, pls[p].groups[..n])];
      |Edges(pls', c)| == |Edges(pls, c)| - if c == pls[p].groups[n] then 1 else 0
  {
    var n := |pls[p].groups| - 1;
    var pls' := pls[p := Pl(pls[p].refs, pls[p].groups[..n])];
    EdgeAdded(pls', p, pls[p].groups[n], c);
    assert pls[p].groups[..n] + [pls[p].groups[n]] == pls[p].groups;
    assert pls'[p := Pl(pls'[p].refs, pls'[p].groups + [pls[p].groups[n]])] == pls;
  }

  // The steps, on the store.

  function Referenced(bgls: Bgls, b: Id): (r: Bgls)
    requires b in bgls
  {
    bgls[b := bgls[b].(refs := bgls[b].refs + 1)]
  }

  lemma ReferenceStep(bgls: Bgls, pls: Pls, extern: map<Id, nat>, bound: Id, b: Id)
    requires StoreOk(bgls, pls, extern, NONE, bound) && b in bgls
    ensures StoreOk(Referenced(bgls, b), pls, extern[b := Held(extern, b) + 1], NONE, bound)
  {
    var bgls', extern' := Referenced(bgls, b), extern[b := Held(extern, b) + 1];
    forall c | c in bgls' ensures BglOk(bgls', pls, extern', NONE, c) { assert BglOk(bgls, pls, extern, NONE, c); }
    forall p | p in pls ensures GroupsLive(bgls', pls[p].groups) { assert GroupsLive(bgls, pls[p].groups); }
  }

  lemma CreateStep(bgls: Bgls, pls: Pls, extern: map<Id, nat>, n: Id, layout: Layout)
    requires StoreOk(bgls, pls, extern, NONE, n)
    ensures n !in bgls && Held(extern, n) == 0 && StoreOk(bgls[n := Bgl(1, layout)], pls, extern[n := 1], NONE, n + 1)
  {
    var bgls', extern' := bgls[n := Bgl(1, layout)], extern[n := 1];
    assert Edges(pls, n) == {} by {
      forall p, i | p in pls && 0 <= i < |pls[p].groups|
        ensures pls[p].groups[i] != n
      {
        assert GroupsLive(bgls, pls[p].groups);
      }
    }
    forall c | c in bgls' ensures BglOk(bgls', pls, extern', NONE, c) {
      if c != n { assert BglOk(bgls, pls, extern, NONE, c); }
    }
    forall p | p in pls ensures GroupsLive(bgls', pls[p].groups) { assert GroupsLive(bgls, pls[p].groups); }
  }

  /** The application gives a reference up. */
  lemma GiveUpStep(bgls: Bgls, pls: Pls, extern: map<Id, nat>, bound: Id, b: Id)
    requires StoreOk(bgls, pls, extern, NONE, bound) && b in bgls && Held(extern, b) > 0
    ensures StoreOk(bgls, pls, extern[b := Held(extern, b) - 1], b, bound)
  {
    forall c | c in bgls
      ensures BglOk(bgls, pls, extern[b := Held(extern, b) - 1], b, c)
    {
      assert BglOk(bgls, pls, extern, NONE, c);
    }
  }

  lemma DropStep(bgls: Bgls, pls: Pls, extern: map<Id, nat>, bound: Id, b: Id)
    requires StoreOk(bgls, pls, extern, b, bound) && b in bgls
    ensures if bgls[b].refs > 1 then StoreOk(bgls[b := bgls[b].(refs := bgls[b].refs - 1)], pls, extern, NONE, bound)
      else StoreOk(bgls - {b}, pls, extern, NONE, bound)
  {
    assert BglOk(bgls, pls, extern, b, b);
    var bgls' := if bgls[b].refs > 1 then bgls[b := bgls[b].(refs := bgls[b].refs - 1)] else bgls - {b};
    forall c | c in bgls' ensures BglOk(bgls', pls, extern, NONE, c) { assert BglOk(bgls, pls, extern, b, c); }
    forall p | p in pls ensures GroupsLive(bgls', pls[p].groups) {
      assert GroupsLive(bgls, pls[p].groups);
      forall i | 0 <= i < |pls[p].groups| ensures pls[p].groups[i] in bgls' {
        assert pls[p].groups[i] == b ==> (p, i) in Edges(pls, b);
      }
    }
  }

  /** The pipeline layout p takes one more bind group layout. */
  lemma LinkStep(bgls: Bgls, pls: Pls, extern: map<Id, nat>, bound: Id, p: Id, b: Id)
    requires StoreOk(bgls, pls, extern, NONE, bound) && b in bgls && p in pls
    ensures StoreOk(Referenced(bgls, b), pls[p := Pl(pls[p].refs, pls[p].groups + [b])], extern, NONE, bound)
  {
    var bgls', pls' := Referenced(bgls, b), pls[p := Pl(pls[p].refs, pls[p].groups + [b])];
    forall c | c in bgls' ensures BglOk(bgls', pls', extern, NONE, c) {
      assert BglOk(bgls, pls, extern, NONE, c);
      EdgeAdded(pls, p, b, c);
    }
    forall q | q in pls' ensures GroupsLive(bgls', pls'[q].groups) { assert GroupsLive(bgls, pls[q].groups); }
  }

  /** The pipeline layout p lets its last bind group layout go. */
  lemma UnlinkStep(bgls: Bgls, pls: Pls, extern: map<Id, nat>, bound: Id, p: Id)
    requires StoreOk(bgls, pls, extern, NONE, bound) && p in pls && pls[p].groups != []
    ensures var n := |pls[p].groups| - 1;
      pls[p].groups[n] in bgls
        && StoreOk(bgls, pls[p := Pl(pls[p].refs, pls[p].groups[..n])], extern, pls[p].groups[n], bound)
  {
    var n := |pls[p].groups| - 1;
    var b, pls' := pls[p].groups[n], pls[p := Pl(pls[p].refs, pls[p].groups[..n])];
    assert GroupsLive(bgls, pls[p].groups);
    forall c | c in bgls ensures BglOk(bgls, pls', extern, b, c) {
      assert BglOk(bgls, pls, extern, NONE, c);
      EdgeRemoved(pls, p, c);
      Unlinked(bgls, pls, pls', extern, b, c);
    }
    forall q | q in pls' ensures GroupsLive(bgls, pls'[q].groups) { assert GroupsLive(bgls, pls[q].groups); }
  }

  lemma Unlinked(bgls: Bgls, pls: Pls, pls': Pls, extern: map<Id, nat>, b: Id, c: Id)
    requires BglOk(bgls, pls, extern, NONE, c) && 0 <= c
    requires |Edges(pls', c)| == |Edges(pls, c)| - if c == b then 1 else 0
    ensures BglOk(bgls, pls', extern, b, c)
  {
    assert bgls[c].refs == Held(extern, c) + |Edges(pls, c)|;
  }

  /** Pipeline layouts that hold nothing come and go. */
  lemma EmptyStep(bgls: Bgls, pls: Pls, pls': Pls, extern: map<Id, nat>, bound: Id, bound': Id)
    requires StoreOk(bgls, pls, extern, NONE, bound) && bound <= bound' && InBounds(pls'.Keys, bound')
    requires forall p :: p in pls && p in pls' ==> pls'[p].groups == pls[p].groups
    requires forall p :: p in pls' && p !in pls ==> pls'[p].groups == []
    requires forall p :: p in pls && p !in pls' ==> pls[p].groups == []
    ensures StoreOk(bgls, pls', extern, NONE, bound')
  {
    forall c | c in bgls ensures BglOk(bgls, pls', extern, NONE, c) {
      assert BglOk(bgls, pls, extern, NONE, c);
      assert Edges(pls', c) == Edges(pls, c);
    }
    forall q | q in pls'
      ensures GroupsLive(bgls, pls'[q].groups)
    {
      assert q in pls ==> GroupsLive(bgls, pls[q].groups);
    }
  }

  lemma NewContent(bgls: Bgls, contents: Contents, n: Id, layout: Layout, c: Content)
    requires ContentsOk(bgls, contents) && n !in bgls && Represents(layout, c)
    requires forall b :: b in bgls ==> bgls[b].layout != layout
    ensures ContentsOk(bgls[n := Bgl(1, layout)], contents[n := c])
  {
    var bgls', contents' := bgls[n := Bgl(1, layout)], contents[n := c];
    forall b | b in bgls ensures b in contents && contents[b] != c {
      assert Means(bgls, contents, b);
      EqualExactly(bgls[b].layout, layout, contents[b], c);
    }
    forall b | b in bgls' ensures Means(bgls', contents', b) { assert b != n ==> Means(bgls, contents, b); }
  }

  lemma ContentsStay(bgls: Bgls, bgls': Bgls, contents: Contents)
    requires ContentsOk(bgls, contents) && forall b :: b in bgls' ==> b in bgls && bgls'[b].layout == bgls[b].layout
    ensures ContentsOk(bgls', contents)
  {
    forall b | b in bgls' ensures Means(bgls', contents, b) { assert Means(bgls, contents, b); }
  }

  /** The caches of one device and the objects in them. */
  class Caches {
    var bgls: Bgls
    var pls: Pls
    var bglCache: set<Id>
    var plCache: set<Id>
    var next: Id

    /** What each bind group layout was asked for, and the references that the application holds. */
    ghost var contents: Contents
    ghost var extern: map<Id, nat>
    ghost var plExtern: map<Id, nat>

    ghost predicate Valid()
      reads this
    {
      BglsOk() && PlsOk(pls, plCache, plExtern, next) && plCache == pls.Keys
    }

    ghost predicate BglsOk()
      reads this
    {
      StoreOk(bgls, pls, extern, NONE, next) && ContentsOk(bgls, contents) && bglCache == bgls.Keys
    }

    constructor ()
      ensures Valid() && bgls == map[] && pls == map[]
    {
      bgls, pls, bglCache, plCache, next := map[], map[], {}, {}, 0;
      contents, extern, plExtern := map[], map[], map[];
    }

    /** `created` tells whether the back end can create an object. */
    method GetOrCreateBindGroupLayout(entries: seq<Entry>, created: bool) returns (r: Option<Id>)
      requires Valid() && ValidEntries(entries)
      modifies this`bgls, this`bglCache, this`next, this`contents, this`extern
      ensures Valid() && bgls.Keys == old(bgls).Keys + (if r.Some? then {r.value} else {})
      ensures forall b :: b in old(contents) && b in old(bgls) ==> b in contents && contents[b] == old(contents)[b]
      ensures r.Some? ==>
        && r.value in contents && contents[r.value] == ContentOf(entries)
        && extern == old(extern)[r.value := Held(old(extern), r.value) + 1]
      ensures r.None? ==> !created && extern == old(extern) && forall b :: b in bgls ==>
        b in contents && contents[b] != ContentOf(entries)
    {
      var blueprint := Blueprint(entries);
      var found := FindBgl(blueprint);
      if found.Some? {
        assert Means(bgls, contents, found.value);
        EqualExactly(bgls[found.value].layout, blueprint, contents[found.value], ContentOf(entries));
        Reference(found.value);
        r := found;
      } else if created {
        var n := Insert(blueprint, ContentOf(entries));
        r := Some(n);
      } else {
        forall b | b in bgls ensures b in contents && contents[b] != ContentOf(entries) {
          assert Means(bgls, contents, b);
          EqualExactly(bgls[b].layout, blueprint, contents[b], ContentOf(entries));
        }
        r := None;
      }
    }

    /** The object that the caches look up. */
    static method Blueprint(entries: seq<Entry>) returns (layout: Layout)
      requires ValidEntries(entries)
      ensures Represents(layout, ContentOf(entries))
    {
      var packed, _, _ := Pack(entries);
      layout := packed;
    }

    method Reference(b: Id)
      requires Valid() && b in bgls
      modifies this`bgls, this`extern
      ensures Valid() && bgls.Keys == old(bgls).Keys && extern == old(extern)[b := Held(old(extern), b) + 1]
    {
      ReferenceStep(bgls, pls, extern, next, b);
      ContentsStay(bgls, Referenced(bgls, b), contents);
      extern := extern[b := Held(extern, b) + 1];
      bgls := Referenced(bgls, b);
    }

    method Insert(layout: Layout, ghost c: Content) returns (n: Id)
      requires Valid() && Represents(layout, c) && forall b :: b in bgls ==> bgls[b].layout != layout
      modifies this`bgls, this`bglCache, this`next, this`contents, this`extern
      ensures Valid() && n !in old(bgls) && bgls == old(bgls)[n := Bgl(1, layout)] && contents == old(contents)[n := c]
      ensures extern == old(extern)[n := Held(old(extern), n) + 1]
    {
      CreateStep(bgls, pls, extern, next, layout);
      NewContent(bgls, contents, next, layout, c);
      n := next;
      bgls, bglCache := bgls[n := Bgl(1, layout)], bglCache + {n};
      contents, extern := contents[n := c], extern[n := 1];
      next := next + 1;
    }

    /** unordered_set::find with EqualityFunc. */
    method FindBgl(blueprint: Layout) returns (r: Option<Id>)
      requires bglCache <= bgls.Keys
      ensures r.Some? ==> r.value in bglCache && bgls[r.value].layout == blueprint
      ensures r.None? ==> forall b :: b in bglCache ==> bgls[b].layout != blueprint
    {
      var rest := bglCache;
      while rest != {}
        invariant rest <= bglCache && forall b :: b in bglCache && b !in rest ==> bgls[b].layout != blueprint
        decreases |rest|
      {
        ghost var some := SomeElement(rest);
        var b :| b in rest;
        var same := Equal(blueprint, bgls[b].layout);
        if same {
          return Some(b);
        }
        rest := rest - {b};
      }
      r := None;
    }

    /** The application releases a bind group layout. */
    method ReleaseBindGroupLayout(b: Id)
      requires Valid() && b in bgls && Held(extern, b) > 0
      modifies this`bgls, this`bglCache, this`extern
      ensures Valid() && extern == old(extern)[b := Held(old(extern), b) - 1]
      ensures bgls.Keys == old(bgls).Keys - if Held(extern, b) + |Edges(pls, b)| == 0 then {b} else {}
    {
      GiveUpStep(bgls, pls, extern, next, b);
      extern := extern[b := Held(extern, b) - 1];
      assert BglOk(bgls, pls, extern, b, b);
      Drop(b);
    }

    /** Drop a reference; the last one takes the object out of the cache. */
    method Drop(b: Id)
      requires StoreOk(bgls, pls, extern, b, next) && b in bgls && ContentsOk(bgls, contents) && bglCache == bgls.Keys
      modifies this`bgls, this`bglCache
      ensures StoreOk(bgls, pls, extern, NONE, next) && ContentsOk(bgls, contents) && bglCache == bgls.Keys
      ensures bgls.Keys == old(bgls).Keys - if old(bgls)[b].refs == 1 then {b} else {}
    {
      DropStep(bgls, pls, extern, next, b);
      assert BglOk(bgls, pls, extern, b, b);
      ContentsStay(bgls, bgls - {b}, contents);
      if bgls[b].refs > 1 {
        ContentsStay(bgls, bgls[b := bgls[b].(refs := bgls[b].refs - 1)], contents);
        bgls := bgls[b := bgls[b].(refs := bgls[b].refs - 1)];
      } else {
        var erased := set q | q in bglCache && bgls[q].layout == bgls[b].layout;
        // The assert of the source: exactly one object is removed, and it is this one.
        assert erased == {b} by {
          assert Means(bgls, contents, b);
          forall q | q in bgls && q != b ensures bgls[q].layout != bgls[b].layout {
            assert Means(bgls, contents, q);
            EqualExactly(bgls[q].layout, bgls[b].layout, contents[q], contents[b]);
          }
        }
        bglCache := bglCache - erased;
        bgls := bgls - {b};
      }
    }

    /** EqualityFunc of pipeline layouts: the same groups are set, to the same objects. */
    method EqualGroups(a: seq<Id>, b: seq<Id>) returns (r: bool)
      ensures r <==> a == b
    {
      if |a| != |b| {
        return false;
      }
      for i := 0 to |a|
        invariant a[..i] == b[..i]
      {
        if a[i] != b[i] {
          return false;
        }
      }
      assert a == a[..|a|] && b == b[..|b|];
      r := true;
    }

    method FindPl(groups: seq<Id>) returns (r: Option<Id>)
      requires plCache <= pls.Keys
      ensures r.Some? ==> r.value in plCache && pls[r.value].groups == groups
      ensures r.None? ==> forall p :: p in plCache ==> pls[p].groups != groups
    {
      var rest := plCache;
      while rest != {}
        invariant rest <= plCache && forall p :: p in plCache && p !in rest ==> pls[p].groups != groups
        decreases |rest|
      {
        ghost var some := SomeElement(rest);
        var p :| p in rest;
        var same := EqualGroups(groups, pls[p].groups);
        if same {
          return Some(p);
        }
        rest := rest - {p};
      }
      r := None;
    }

    method GetOrCreatePipelineLayout(groups: seq<Id>, created: bool) returns (r: Option<Id>)
      requires Valid() && GroupsLive(bgls, groups) && |groups| <= MAX_BIND_GROUPS
      modifies this`bgls, this`pls, this`plCache, this`next, this`plExtern
      ensures Valid() && bgls.Keys == old(bgls).Keys && pls.Keys == old(pls).Keys + (if r.Some? then {r.value} else {})
      ensures r.Some? ==>
        pls[r.value].groups == groups && plExtern == old(plExtern)[r.value := Held(old(plExtern), r.value) + 1]
      ensures forall p :: p in old(pls) ==> pls[p].groups == old(pls)[p].groups
      ensures r.None? ==> !created && plExtern == old(plExtern) && forall p :: p in pls ==> pls[p].groups != groups
    {
      r := FindPl(groups);
      if r.Some? {
        ReferencePl(r.value);
      } else if created {
        var n := InsertPl(groups);
        r := Some(n);
      }
    }

    method ReferencePl(p: Id)
      requires Valid() && p in pls
      modifies this`pls, this`plExtern
      ensures Valid() && pls == old(pls)[p := Pl(old(pls)[p].refs + 1, old(pls)[p].groups)]
      ensures plExtern == old(plExtern)[p := Held(old(plExtern), p) + 1]
    {
      assert PlCountOk(pls, plExtern, p);
      PlCounted(pls, plCache, plExtern, next, p, pls[p].refs + 1);
      EmptyStep(bgls, pls, pls[p := Pl(pls[p].refs + 1, pls[p].groups)], extern, next, next);
      plExtern := plExtern[p := Held(plExtern, p) + 1];
      pls := pls[p := Pl(pls[p].refs + 1, pls[p].groups)];
    }

    method InsertPl(groups: seq<Id>) returns (n: Id)
      requires Valid() && GroupsLive(bgls, groups) && forall p :: p in pls ==> pls[p].groups != groups
      modifies this`bgls, this`pls, this`plCache, this`next, this`plExtern
      ensures Valid() && bgls.Keys == old(bgls).Keys && n !in old(pls) && pls == old(pls)[n := Pl(1, groups)]
      ensures plExtern == old(plExtern)[n := Held(old(plExtern), n) + 1]
    {
      PlAdded(pls, plCache, plExtern, next, groups);
      n := Build(groups);
      plCache := plCache + {n};
      plExtern := plExtern[n := 1];
    }

    /** A new pipeline layout takes a reference to each of its bind group layouts. */
    method Build(groups: seq<Id>) returns (n: Id)
      requires BglsOk() && GroupsLive(bgls, groups)
      modifies this`bgls, this`pls, this`next
      ensures BglsOk() && bgls.Keys == old(bgls).Keys && n !in old(pls) && n == old(next) && next == n + 1
      ensures pls == old(pls)[n := Pl(1, groups)]
    {
      n := next;
      EmptyStep(bgls, pls, pls[n := Pl(1, [])], extern, next, next + 1);
      pls := pls[n := Pl(1, [])];
      next := next + 1;
      for i := 0 to |groups|
        invariant BglsOk() && bgls.Keys == old(bgls).Keys && next == n + 1
        invariant n in pls && pls == old(pls)[n := Pl(1, groups[..i])]
      {
        assert groups[..i + 1] == groups[..i] + [groups[i]];
        Link(n, groups[i]);
      }
      assert groups[..|groups|] == groups;
    }

    method Link(p: Id, b: Id)
      requires BglsOk() && p in pls && b in bgls
      modifies this`bgls, this`pls
      ensures BglsOk() && bgls.Keys == old(bgls).Keys
      ensures pls == old(pls)[p := Pl(old(pls)[p].refs, old(pls)[p].groups + [b])]
    {
      LinkStep(bgls, pls, extern, next, p, b);
      ContentsStay(bgls, Referenced(bgls, b), contents);
      bgls := Referenced(bgls, b);
      pls := pls[p := Pl(pls[p].refs, pls[p].groups + [b])];
    }

    /** The application releases a pipeline layout; the last reference takes it out of the cache and lets
        its bind group layouts go. */
    method ReleasePipelineLayout(p: Id)
      requires Valid() && p in pls && Held(plExtern, p) > 0
      modifies this`bgls, this`bglCache, this`pls, this`plCache, this`plExtern
      ensures Valid() && plExtern == old(plExtern)[p := Held(old(plExtern), p) - 1]
      ensures pls.Keys == old(pls).Keys - if Held(plExtern, p) == 0 then {p} else {}
      ensures forall q :: q in pls ==> pls[q].groups == old(pls)[q].groups
      ensures forall b :: b in old(bgls) && Held(extern, b) > 0 ==> b in bgls
    {
      assert PlCountOk(pls, plExtern, p);
      if pls[p].refs > 1 {
        PlCounted(pls, plCache, plExtern, next, p, pls[p].refs - 1);
        EmptyStep(bgls, pls, pls[p := Pl(pls[p].refs - 1, pls[p].groups)], extern, next, next);
        plExtern := plExtern[p := Held(plExtern, p) - 1];
        pls := pls[p := Pl(pls[p].refs - 1, pls[p].groups)];
      } else {
        RemovePl(p);
      }
    }

    method RemovePl(p: Id)
      requires Valid() && p in pls && pls[p].refs == 1
      modifies this`bgls, this`bglCache, this`pls, this`plCache, this`plExtern
      ensures Valid() && plExtern == old(plExtern)[p := 0] && pls == old(pls) - {p}
    {
      PlRemoved(pls, plCache, plExtern, next, p);
      var erased := set q | q in plCache && q in pls && pls[q].groups == pls[p].groups;
      // The assert of the source: exactly one object is removed, and it is this one.
      assert erased == {p};
      plCache := plCache - erased;
      plExtern := plExtern[p := 0];
      Unbuild(p);
    }

    /** The references of a pipeline layout go one by one, the last first. */
    method Unbuild(p: Id)
      requires BglsOk() && p in pls
      modifies this`bgls, this`bglCache, this`pls
      ensures BglsOk() && pls == old(pls) - {p}
    {
      while pls[p].groups != []
        invariant BglsOk() && p in pls && pls - {p} == old(pls) - {p}
        decreases |pls[p].groups|
      {
        UnlinkLast(p);
      }
      EmptyStep(bgls, pls, pls - {p}, extern, next, next);
      pls := pls - {p};
    }

    method UnlinkLast(p: Id)
      requires BglsOk() && p in pls && pls[p].groups != []
      modifies this`bgls, this`bglCache, this`pls
      ensures BglsOk() && p in pls && pls - {p} == old(pls) - {p} && |pls[p].groups| == |old(pls)[p].groups| - 1
    {
      var k := |pls[p].groups| - 1;
      var b := pls[p].groups[k];
      UnlinkStep(bgls, pls, extern, next, p);
      pls := pls[p := Pl(pls[p].refs, pls[p].groups[..k])];
      assert pls - {p} == old(pls) - {p};
      Drop(b);
    }
  }

  /** Live bind group layouts are the same object exactly when they bind the same at the same numbers. */
  lemma SameBindGroupLayout(t: Caches, a: Id, b: Id)
    requires t.Valid() && a in t.bgls && b in t.bgls
    ensures a in t.contents && b in t.contents && (a == b <==> t.contents[a] == t.contents[b])
    ensures a == b <==> t.bgls[a].layout == t.bgls[b].layout
  {
    assert Means(t.bgls, t.contents, a) && Means(t.bgls, t.contents, b);
    EqualExactly(t.bgls[a].layout, t.bgls[b].layout, t.contents[a], t.contents[b]);
  }

  /** What a pipeline layout binds, group by group. */
  ghost function DeepContent(t: Caches, p: Id): (r: seq<Content>)
    reads t
    requires t.Valid() && p in t.pls
    ensures |r| == |t.pls[p].groups|
    ensures forall i :: 0 <= i < |r| ==> t.pls[p].groups[i] in t.contents && r[i] == t.contents[t.pls[p].groups[i]]
  {
    var groups, contents := t.pls[p].groups, t.contents;
    assert GroupsLive(t.bgls, groups);
    assert forall i :: 0 <= i < |groups| ==> Means(t.bgls, contents, groups[i]);
    seq(|groups|, i requires 0 <= i < |groups| && groups[i] in contents => contents[groups[i]])
  }

  /** Live pipeline layouts are the same object exactly when they bind the same in every group. */
  lemma SamePipelineLayout(t: Caches, p: Id, q: Id)
    requires t.Valid() && p in t.pls && q in t.pls
    ensures p == q <==> DeepContent(t, p) == DeepContent(t, q)
  {
    if DeepContent(t, p) == DeepContent(t, q) {
      assert GroupsLive(t.bgls, t.pls[p].groups) && GroupsLive(t.bgls, t.pls[q].groups);
      assert |t.pls[p].groups| == |DeepContent(t, p)| == |t.pls[q].groups|;
      forall i | 0 <= i < |t.pls[p].groups| ensures t.pls[p].groups[i] == t.pls[q].groups[i] {
        SameBindGroupLayout(t, t.pls[p].groups[i], t.pls[q].groups[i]);
        assert DeepContent(t, p)[i] == DeepContent(t, q)[i];
      }
      assert t.pls[p].groups == t.pls[q].groups;
    }
  }

  /** Two descriptors get the same object exactly when they bind the same, field by field. */
  method SameObjectExactly(t: Caches, a: seq<Entry>, b: seq<Entry>) returns (x: Option<Id>, y: Option<Id>)
    requires t.Valid() && ValidEntries(a) && ValidEntries(b)
    modifies t
    ensures t.Valid() && x.Some? && y.Some? && x.value in t.bgls && y.value in t.bgls
    ensures x == y <==> SameBindings(a, b)
  {
    SameContentExactly(a, b);
    x := t.GetOrCreateBindGroupLayout(a, true);
    y := t.GetOrCreateBindGroupLayout(b, true);
    SameBindGroupLayout(t, x.value, y.value);
  }

  /** What the application holds is there for it, through everything that others release. */
  method HeldLayoutsStay(t: Caches, entries: seq<Entry>) returns (a: Option<Id>)
    requires t.Valid() && ValidEntries(entries)
    modifies t
    ensures t.Valid()
    ensures (a.Some? ==> a.value in t.bgls && a.value in t.contents && t.contents[a.value] == ContentOf(entries))
  {
    a := t.GetOrCreateBindGroupLayout(entries, true);
    if a.Some? {
      var p := t.GetOrCreatePipelineLayout([a.value], true);
      if p.Some? {
        t.ReleasePipelineLayout(p.value);
      }
    }
  }
}
