/** Packing the entries of a bind group layout: src/dawn_native/BindGroupLayout.cpp. Enumerations and
    masks that are only compared are numbers; binding types keep the values of dawn.json. */
module BindGroupLayouts {
  const DIMENSION_UNDEFINED: nat := 0
  const DIMENSION_2D: nat := 2
  const UNIFORM_BUFFER: nat := 0
  const STORAGE_BUFFER: nat := 1
  const READONLY_STORAGE_BUFFER: nat := 2

  datatype Info = Info(visibility: nat, kind: nat, component: nat, dimension: nat, format: nat, dynamic: bool,
    multisampled: bool)
  datatype Entry = Entry(binding: nat, info: Info)

  /** mBindingInfo up to mBindingCount, and mBindingMap. */
  datatype Layout = Layout(infos: seq<Info>, bindings: map<nat, nat>)

  predicate IsBuffer(kind: nat) {
    kind == UNIFORM_BUFFER || kind == STORAGE_BUFFER || kind == READONLY_STORAGE_BUFFER
  }

  function Normal(info: Info): (r: Info) {
    if info.dimension == DIMENSION_UNDEFINED then info.(dimension := DIMENSION_2D) else info
  }

  function AsNat(b: bool): (n: nat) {
    if b then 1 else 0
  }

  predicate SortBindingsCompare(a: Entry, b: Entry) {
    if a.info.dynamic != b.info.dynamic then AsNat(a.info.dynamic) > AsNat(b.info.dynamic)
    else if a.info.kind != b.info.kind then a.info.kind < b.info.kind
    else if a.binding != b.binding then a.binding < b.binding
    else if a.info.visibility != b.info.visibility then a.info.visibility < b.info.visibility
    else if a.info.multisampled != b.info.multisampled then AsNat(a.info.multisampled) < AsNat(b.info.multisampled)
    else if a.info.dimension != b.info.dimension then a.info.dimension < b.info.dimension
    else if a.info.component != b.info.component then a.info.component < b.info.component
    else a.info.format < b.info.format
  }

  /** What ValidateBindGroupLayoutDescriptor demands and packing relies on. */
  predicate ValidEntries(entries: seq<Entry>) {
    && (forall i, j :: 0 <= i < j < |entries| ==> entries[i].binding != entries[j].binding)
    && (forall i :: 0 <= i < |entries| && entries[i].info.dynamic ==> IsBuffer(entries[i].info.kind))
  }

  // The meaning of a descriptor: what is bound at each number.

  type Content = map<nat, Info>

  function ContentOf(entries: seq<Entry>): (c: Content) {
    if entries == [] then map[]
    else ContentOf(entries[..|entries| - 1])[entries[|entries| - 1].binding := Normal(entries[|entries| - 1].info)]
  }

  lemma {:induction false} ContentAt(entries: seq<Entry>)
    requires ValidEntries(entries)
    ensures forall i :: 0 <= i < |entries| ==>
      entries[i].binding in ContentOf(entries) && ContentOf(entries)[entries[i].binding] == Normal(entries[i].info)
  {
    if entries != [] {
      var k := |entries| - 1;
      ContentAt(entries[..k]);
      forall i | 0 <= i < k
        ensures entries[i].binding in ContentOf(entries)
        ensures ContentOf(entries)[entries[i].binding] == Normal(entries[i].info)
      {
        assert entries[..k][i] == entries[i];
      }
    }
  }

  /** Two view dimensions count as the same if they are, or if each is 2D or undefined. */
  predicate SameDimension(d: nat, e: nat) {
    d == e || (d in {0, 2} && e in {0, 2})
  }

  /** Two entries bind the same, field by field. */
  predicate SameBinding(a: Info, b: Info) {
    && a.visibility == b.visibility && a.kind == b.kind && a.component == b.component && a.format == b.format
    && a.dynamic == b.dynamic && a.multisampled == b.multisampled && SameDimension(a.dimension, b.dimension)
  }

  predicate Binds(entries: seq<Entry>, n: nat) {
    exists i :: 0 <= i < |entries| && entries[i].binding == n
  }

  /** The same numbers are bound, and each to the same. */
  ghost predicate SameBindings(a: seq<Entry>, b: seq<Entry>) {
    && (forall n {:trigger Binds(a, n)} {:trigger Binds(b, n)} :: Binds(a, n) <==> Binds(b, n))
    && (forall i, j :: 0 <= i < |a| && 0 <= j < |b| && a[i].binding == b[j].binding ==>
          SameBinding(a[i].info, b[j].info))
  }

  /** Contents are equal exactly when the entries bind the same, whatever their order. */
  lemma SameContentExactly(a: seq<Entry>, b: seq<Entry>)
    requires ValidEntries(a) && ValidEntries(b)
    ensures ContentOf(a) == ContentOf(b) <==> SameBindings(a, b)
  {
    var c, d := ContentOf(a), ContentOf(b);
    ContentAt(a);
    ContentAt(b);
    forall n ensures (n in c <==> Binds(a, n)) && (n in d <==> Binds(b, n)) {
      if n in c { var i := IndexOf(a, n); }
      if n in d { var j := IndexOf(b, n); }
    }
    if SameBindings(a, b) {
      forall n | n in c ensures n in d && c[n] == d[n] {
        assert Binds(a, n) && Binds(b, n);
        var i, j := IndexOf(a, n), IndexOf(b, n);
        assert SameBinding(a[i].info, b[j].info);
      }
      forall n | n in d ensures n in c { assert Binds(b, n) && Binds(a, n); }
    }
  }

  /** The entry of a number. */
  ghost function IndexOf(entries: seq<Entry>, n: nat): (i: nat)
    requires n in ContentOf(entries)
    ensures i < |entries| && entries[i].binding == n
  {
    var k := |entries| - 1;
    if entries[k].binding == n then k else IndexOf(entries[..k], n)
  }

  /** Dynamic bindings first, then by type, then by number. */
  predicate Less(c: Content, m: nat, n: nat)
    requires m in c && n in c
  {
    if c[m].dynamic != c[n].dynamic then c[m].dynamic
    else if c[m].kind != c[n].kind then c[m].kind < c[n].kind
    else m < n
  }

  /** The binding numbers in packing order. */
  ghost predicate Order(order: seq<nat>, c: Content) {
    && (forall i :: 0 <= i < |order| ==> order[i] in c)
    && (forall n :: n in c ==> n in order)
    && (forall i, j :: 0 <= i < j < |order| ==> Less(c, order[i], order[j]))
  }

  lemma LastNotBefore(a: seq<nat>, b: seq<nat>, c: Content)
    requires Order(a, c) && Order(b, c) && a != []
    ensures b != [] && (b[|b| - 1] == a[|a| - 1] || Less(c, a[|a| - 1], b[|b| - 1]))
  {
    var x := a[|a| - 1];
    assert x in c;
    var k :| 0 <= k < |b| && b[k] == x;
  }

  lemma {:induction false} OnlyOneOrder(a: seq<nat>, b: seq<nat>, c: Content)
    requires Order(a, c) && Order(b, c)
    ensures a == b
    decreases |a|
  {
    if b != [] { LastNotBefore(b, a, c); }
    if a != [] {
      LastNotBefore(a, b, c);
      var x := a[|a| - 1];
      assert b[|b| - 1] == x;
      OrderWithoutLast(a, c);
      OrderWithoutLast(b, c);
      OnlyOneOrder(a[..|a| - 1], b[..|b| - 1], c - {x});
      assert a == a[..|a| - 1] + [x] && b == b[..|b| - 1] + [x];
    }
  }

  lemma OrderWithoutLast(a: seq<nat>, c: Content)
    requires Order(a, c) && a != []
    ensures Order(a[..|a| - 1], c - {a[|a| - 1]})
  {
    var k := |a| - 1;
    var c' := c - {a[k]};
    forall i | 0 <= i < k ensures a[i] in c' { assert Less(c, a[i], a[k]); }
    forall n | n in c' ensures n in a[..k] {
      var i :| 0 <= i < |a| && a[i] == n;
      assert a[..k][i] == n;
    }
    forall i, j | 0 <= i < j < k ensures Less(c', a[i], a[j]) { assert Less(c, a[i], a[j]); }
  }

  /** The layout that an order of a content gives. */
  ghost predicate LaidOut(layout: Layout, order: seq<nat>, c: Content) {
    && Order(order, c) && |layout.infos| == |order| && layout.bindings.Keys == c.Keys
    && (forall i :: 0 <= i < |order| ==> layout.infos[i] == c[order[i]] && layout.bindings[order[i]] == i)
  }

  ghost predicate Represents(layout: Layout, c: Content) {
    exists order :: LaidOut(layout, order, c)
  }

  /** Layouts are equal exactly when their contents are. */
  lemma EqualExactly(l: Layout, m: Layout, c: Content, d: Content)
    requires Represents(l, c) && Represents(m, d)
    ensures l == m <==> c == d
  {
    var p :| LaidOut(l, p, c);
    var q :| LaidOut(m, q, d);
    if c == d {
      OnlyOneOrder(p, q, c);
      SameLayout(l, m, p, c);
    }
    if l == m {
      SameContent(l, p, q, c, d);
    }
  }

  lemma SameLayout(l: Layout, m: Layout, order: seq<nat>, c: Content)
    requires LaidOut(l, order, c) && LaidOut(m, order, c)
    ensures l == m
  {
    forall n | n in l.bindings ensures l.bindings[n] == m.bindings[n] {
      var i :| 0 <= i < |order| && order[i] == n;
    }
    assert l.infos == m.infos && l.bindings == m.bindings;
  }

  lemma SameContent(l: Layout, p: seq<nat>, q: seq<nat>, c: Content, d: Content)
    requires LaidOut(l, p, c) && LaidOut(l, q, d)
    ensures c == d
  {
    assert c.Keys == d.Keys;
    forall n | n in c ensures c[n] == d[n] {
      var i :| 0 <= i < |p| && p[i] == n;
      var j :| 0 <= j < |q| && q[j] == n;
    }
  }

  // Sorting. With distinct numbers only the first three criteria matter.

  predicate KeyLess(a: Entry, b: Entry) {
    if a.info.dynamic != b.info.dynamic then a.info.dynamic
    else if a.info.kind != b.info.kind then a.info.kind < b.info.kind
    else a.binding < b.binding
  }

  lemma CompareByKey(a: Entry, b: Entry)
    requires a.binding != b.binding
    ensures SortBindingsCompare(a, b) <==> KeyLess(a, b)
    ensures KeyLess(a, b) <==> !KeyLess(b, a)
  {
  }

  predicate Ascending(entries: seq<Entry>) {
    forall i, j :: 0 <= i < j < |entries| ==> KeyLess(entries[i], entries[j])
  }

  /** An insertion step of std::sort. */
  function InsertEntry(sorted: seq<Entry>, x: Entry): (r: seq<Entry>) {
    if sorted == [] || !SortBindingsCompare(x, sorted[|sorted| - 1]) then sorted + [x]
    else InsertEntry(sorted[..|sorted| - 1], x) + [sorted[|sorted| - 1]]
  }

  lemma {:induction false} InsertSorts(sorted: seq<Entry>, x: Entry)
    requires Ascending(sorted) && forall i :: 0 <= i < |sorted| ==> sorted[i].binding != x.binding
    ensures Ascending(InsertEntry(sorted, x)) && |InsertEntry(sorted, x)| == |sorted| + 1
    ensures multiset(InsertEntry(sorted, x)) == multiset(sorted) + multiset{x}
  {
    if sorted != [] {
      var n := |sorted| - 1;
      CompareByKey(x, sorted[n]);
      assert sorted == sorted[..n] + [sorted[n]];
      if SortBindingsCompare(x, sorted[n]) {
        var r := InsertEntry(sorted[..n], x);
        InsertSorts(sorted[..n], x);
        forall i | 0 <= i < |r| ensures KeyLess(r[i], sorted[n]) {
          assert r[i] in multiset(r);
        }
      }
    }
  }

  /** std::sort with SortBindingsCompare. */
  method SortEntries(entries: seq<Entry>) returns (sorted: seq<Entry>)
    requires ValidEntries(entries)
    ensures Ascending(sorted) && multiset(sorted) == multiset(entries)
  {
    sorted := [];
    for i := 0 to |entries|
      invariant Ascending(sorted) && multiset(sorted) == multiset(entries[..i])
    {
      assert entries[..i + 1] == entries[..i] + [entries[i]];
      forall j | 0 <= j < |sorted| ensures sorted[j].binding != entries[i].binding {
        assert sorted[j] in multiset(entries[..i]);
      }
      InsertSorts(sorted, entries[i]);
      sorted := InsertEntry(sorted, entries[i]);
    }
    assert entries[..|entries|] == entries;
  }

  function Bindings(entries: seq<Entry>): (r: seq<nat>)
    ensures |r| == |entries| && forall i :: 0 <= i < |r| ==> r[i] == entries[i].binding
  {
    seq(|entries|, i requires 0 <= i < |entries| => entries[i].binding)
  }

  lemma SortedDistinct(entries: seq<Entry>, sorted: seq<Entry>)
    requires ValidEntries(entries) && Ascending(sorted) && multiset(sorted) == multiset(entries)
    ensures ValidEntries(sorted)
  {
    forall i | 0 <= i < |sorted| ensures sorted[i] in entries { assert sorted[i] in multiset(sorted); }
    forall i, j | 0 <= i < j < |sorted| ensures sorted[i].binding != sorted[j].binding {
      assert KeyLess(sorted[i], sorted[j]);
      var k :| 0 <= k < |entries| && entries[k] == sorted[i];
      var l :| 0 <= l < |entries| && entries[l] == sorted[j];
    }
  }

  lemma SortedContent(entries: seq<Entry>, sorted: seq<Entry>)
    requires ValidEntries(entries) && multiset(sorted) == multiset(entries)
    ensures forall i :: 0 <= i < |sorted| ==>
      sorted[i].binding in ContentOf(entries) && ContentOf(entries)[sorted[i].binding] == Normal(sorted[i].info)
  {
    ContentAt(entries);
    forall i | 0 <= i < |sorted| ensures sorted[i] in entries { assert sorted[i] in multiset(sorted); }
  }

  lemma SortedComplete(entries: seq<Entry>, sorted: seq<Entry>, n: nat)
    requires ValidEntries(entries) && multiset(sorted) == multiset(entries) && n in ContentOf(entries)
    ensures n in Bindings(sorted)
  {
    var i := IndexOf(entries, n);
    assert entries[i] in multiset(entries);
    var k :| 0 <= k < |sorted| && sorted[k] == entries[i];
    assert Bindings(sorted)[k] == n;
  }

  /** The sorted entries give the order of the content, whatever order they came in. */
  lemma SortedGivesOrder(entries: seq<Entry>, sorted: seq<Entry>)
    requires ValidEntries(entries) && Ascending(sorted) && multiset(sorted) == multiset(entries)
    ensures Order(Bindings(sorted), ContentOf(entries))
  {
    var c, order := ContentOf(entries), Bindings(sorted);
    SortedContent(entries, sorted);
    forall n | n in c ensures n in order { SortedComplete(entries, sorted, n); }
    forall i, j | 0 <= i < j < |order| ensures Less(c, order[i], order[j]) { assert KeyLess(sorted[i], sorted[j]); }
  }

  /** Dynamic buffers come first, and then the other buffers. */
  lemma BuffersFirst(sorted: seq<Entry>, i: nat, j: nat)
    requires ValidEntries(sorted) && Ascending(sorted) && i < j < |sorted|
    ensures sorted[j].info.dynamic ==> sorted[i].info.dynamic
    ensures IsBuffer(sorted[j].info.kind) ==> IsBuffer(sorted[i].info.kind)
  {
    assert KeyLess(sorted[i], sorted[j]);
  }

  /** The loop of the constructor of BindGroupLayoutBase has packed the first n entries. */
  ghost predicate Packed(sorted: seq<Entry>, n: nat, layout: Layout) {
    && n <= |sorted| && |layout.infos| == n
    && layout.bindings.Keys == (set i | 0 <= i < n :: sorted[i].binding)
    && (forall i :: 0 <= i < n ==> layout.infos[i] == Normal(sorted[i].info) && layout.bindings[sorted[i].binding] == i)
  }

  lemma PackOne(sorted: seq<Entry>, n: nat, layout: Layout)
    requires ValidEntries(sorted) && n < |sorted| && Packed(sorted, n, layout)
    ensures sorted[n].binding !in layout.bindings
    ensures Packed(sorted, n + 1,
      Layout(layout.infos + [Normal(sorted[n].info)], layout.bindings[sorted[n].binding := n]))
  {
  }

  lemma PackedAll(entries: seq<Entry>, sorted: seq<Entry>, layout: Layout)
    requires ValidEntries(entries) && Ascending(sorted) && multiset(sorted) == multiset(entries)
    requires Packed(sorted, |sorted|, layout)
    ensures LaidOut(layout, Bindings(sorted), ContentOf(entries))
  {
    var c, order := ContentOf(entries), Bindings(sorted);
    SortedGivesOrder(entries, sorted);
    SortedContent(entries, sorted);
    forall n | n in c ensures n in layout.bindings {
      var i :| 0 <= i < |order| && order[i] == n;
    }
    assert layout.bindings.Keys == c.Keys;
  }

  /** The constructor of BindGroupLayoutBase. The counts say where the dynamic bindings and the buffers
      end. */
  method Pack(entries: seq<Entry>) returns (layout: Layout, bufferCount: nat, dynamicCount: nat)
    requires ValidEntries(entries)
    ensures Represents(layout, ContentOf(entries)) && dynamicCount <= bufferCount <= |layout.infos|
    ensures forall i :: 0 <= i < |layout.infos| ==>
      (layout.infos[i].dynamic <==> i < dynamicCount) && (layout.infos[i].kind in {0, 1, 2} <==> i < bufferCount)
    ensures forall k :: 0 <= k < |entries| ==> PackedAs(layout, entries[k])
    ensures forall n :: n in layout.bindings ==> Binds(entries, n)
  {
    var sorted := SortEntries(entries);
    SortedDistinct(entries, sorted);
    layout, bufferCount, dynamicCount := Layout([], map[]), 0, 0;
    for i := 0 to |sorted|
      invariant Packed(sorted, i, layout) && Counted(sorted, i, bufferCount, dynamicCount)
    {
      PackOne(sorted, i, layout);
      CountOne(sorted, i, bufferCount, dynamicCount);
      var e := sorted[i];
      // The asserts of the source: buffers are packed at the start, and the number is new.
      assert IsBuffer(e.info.kind) ==> bufferCount == i;
      assert e.binding !in layout.bindings;
      bufferCount := bufferCount + AsNat(IsBuffer(e.info.kind));
      dynamicCount := dynamicCount + AsNat(e.info.dynamic);
      layout := Layout(layout.infos + [Normal(e.info)], layout.bindings[e.binding := i]);
    }
    PackedAll(entries, sorted, layout);
    PackedEach(entries, sorted, layout);
  }

  /** The entry is packed as it is, but for a dimension that was left undefined. */
  predicate PackedAs(layout: Layout, e: Entry) {
    && e.binding in layout.bindings && layout.bindings[e.binding] < |layout.infos|
    && var info := layout.infos[layout.bindings[e.binding]];
    && info == e.info.(dimension := info.dimension)
    && info.dimension == if e.info.dimension == 0 then 2 else e.info.dimension
  }

  lemma PackedEach(entries: seq<Entry>, sorted: seq<Entry>, layout: Layout)
    requires multiset(sorted) == multiset(entries) && Packed(sorted, |sorted|, layout)
    ensures forall k :: 0 <= k < |entries| ==> PackedAs(layout, entries[k])
    ensures forall n :: n in layout.bindings ==> Binds(entries, n)
  {
    forall k | 0 <= k < |entries| ensures PackedAs(layout, entries[k]) {
      assert entries[k] in multiset(sorted);
      var i :| 0 <= i < |sorted| && sorted[i] == entries[k];
    }
    forall n | n in layout.bindings ensures Binds(entries, n) {
      var i :| 0 <= i < |sorted| && sorted[i].binding == n;
      assert sorted[i] in multiset(entries);
    }
  }

  ghost predicate Counted(sorted: seq<Entry>, n: nat, bufferCount: nat, dynamicCount: nat)
    requires n <= |sorted|
  {
    && dynamicCount <= bufferCount <= n
    && forall j :: 0 <= j < n ==>
      && (sorted[j].info.dynamic <==> j < dynamicCount)
      && (IsBuffer(sorted[j].info.kind) <==> j < bufferCount)
  }

  lemma CountOne(sorted: seq<Entry>, n: nat, bufferCount: nat, dynamicCount: nat)
    requires ValidEntries(sorted) && Ascending(sorted) && n < |sorted| && Counted(sorted, n, bufferCount, dynamicCount)
    ensures IsBuffer(sorted[n].info.kind) ==> bufferCount == n
    ensures Counted(sorted, n + 1, bufferCount + AsNat(IsBuffer(sorted[n].info.kind)),
      dynamicCount + AsNat(sorted[n].info.dynamic))
  {
    if bufferCount < n { BuffersFirst(sorted, bufferCount, n); }
    if dynamicCount < n { BuffersFirst(sorted, dynamicCount, n); }
  }

  /** EqualityFunc compares the infos one by one, and then the maps. */
  method Equal(a: Layout, b: Layout) returns (r: bool)
    ensures r <==> a == b
  {
    if |a.infos| != |b.infos| {
      return false;
    }
    for i := 0 to |a.infos|
      invariant a.infos[..i] == b.infos[..i]
    {
      if a.infos[i] != b.infos[i] {
        return false;
      }
    }
    assert a.infos == a.infos[..|a.infos|] && b.infos == b.infos[..|b.infos|];
    r := a.bindings == b.bindings;
  }

  /** Two descriptors give equal layouts exactly when they bind the same at the same numbers. */
  method EqualWhateverTheOrder(a: seq<Entry>, b: seq<Entry>) returns (r: bool)
    requires ValidEntries(a) && ValidEntries(b)
    ensures r <==> SameBindings(a, b)
    ensures r <==> ContentOf(a) == ContentOf(b)
  {
    SameContentExactly(a, b);
    var l, _, _ := Pack(a);
    var m, _, _ := Pack(b);
    EqualExactly(l, m, ContentOf(a), ContentOf(b));
    r := Equal(l, m);
  }

  // The order of dynamic offsets.

  /** The packed dynamic bindings are in increasing order of their numbers. */
  ghost predicate DynamicByNumber(order: seq<nat>, c: Content)
    requires Order(order, c)
  {
    forall i, j :: 0 <= i < j < |order| && c[order[j]].dynamic ==> order[i] < order[j]
  }

  lemma OrderedOneWay(order: seq<nat>, c: Content, i: nat, j: nat)
    requires Order(order, c) && i < |order| && j <= i
    ensures !Less(c, order[i], order[j])
  {
    if j < i { assert Less(c, order[j], order[i]); }
  }

  /** That is so exactly when the types of the dynamic bindings grow with their numbers. */
  lemma DynamicByNumberExactly(order: seq<nat>, c: Content)
    requires Order(order, c)
    ensures DynamicByNumber(order, c) <==>
      forall m, n :: m in c && n in c && c[m].dynamic && c[n].dynamic && c[m].kind < c[n].kind ==> m < n
  {
    if DynamicByNumber(order, c) {
      forall m, n | m in c && n in c && c[m].dynamic && c[n].dynamic && c[m].kind < c[n].kind ensures m < n {
        var i :| 0 <= i < |order| && order[i] == m;
        var j :| 0 <= j < |order| && order[j] == n;
        if j <= i { OrderedOneWay(order, c, i, j); }
      }
    }
    if forall m, n :: m in c && n in c && c[m].dynamic && c[n].dynamic && c[m].kind < c[n].kind ==> m < n {
      forall i, j | 0 <= i < j < |order| && c[order[j]].dynamic ensures order[i] < order[j] {
        assert Less(c, order[i], order[j]);
      }
    }
  }

  /** A dynamic storage buffer at 0 is packed behind a dynamic uniform buffer at 1. */
  lemma DynamicNotByNumber()
    ensures var uniform := Info(4, UNIFORM_BUFFER, 0, DIMENSION_2D, 0, true, false);
      var c: Content := map[0 := uniform.(kind := STORAGE_BUFFER), 1 := uniform];
      Order([1, 0], c) && !DynamicByNumber([1, 0], c)
  {
    var uniform := Info(4, UNIFORM_BUFFER, 0, DIMENSION_2D, 0, true, false);
    var c: Content := map[0 := uniform.(kind := STORAGE_BUFFER), 1 := uniform];
    var order: seq<nat> := [1, 0];
    assert order[0] == 1 && order[1] == 0;
    assert Less(c, 1, 0);
  }
}
