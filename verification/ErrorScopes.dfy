/** Error scopes on the serial timeline: src/dawn_native/ErrorScope.cpp, ErrorScopeTracker.cpp and the
    scope stack of Device.cpp. A scope pointer is a key of a store and scopes are numbered as they are
    created. The root scope is number 0: the device always refers to it, so it is not counted. */
module ErrorScopes {
  import opened Wrappers
  import opened SerialStorage

  type ScopeId = int
  const ROOT: ScopeId := 0

  datatype ErrorFilter = NoFilter | FilterValidation | FilterOutOfMemory
  datatype ErrorType = Validation | OutOfMemory | Unknown | DeviceLost
  datatype Error = Error(kind: ErrorType, message: string)

  /** `callback` says whether the application has given a callback, `error` is the recorded error. */
  datatype Scope = Scope(parent: ScopeId, filter: ErrorFilter, refs: nat, callback: bool, error: Option<Error>)
  type Store = map<ScopeId, Scope>
  /** The parent of every scope there ever was. */
  type Lineage = map<ScopeId, ScopeId>

  /** A call of the callback of a scope. */
  datatype Report = Report(scope: ScopeId, error: Option<Error>)

  // Ancestry.

  predicate Rooted(parents: Lineage) {
    forall c :: c in parents ==> 0 <= parents[c] < c && (parents[c] == ROOT || parents[c] in parents)
  }

  /** A scope, its parent and so on, without the root. */
  function Chain(parents: Lineage, s: ScopeId): (r: seq<ScopeId>)
    requires Rooted(parents)
    decreases if s in parents then s else 0
  {
    if s in parents then [s] + Chain(parents, parents[s]) else []
  }

  predicate Under(parents: Lineage, c: ScopeId, s: ScopeId)
    requires Rooted(parents)
  {
    s in Chain(parents, c)
  }

  lemma {:induction false} ChainBelow(parents: Lineage, s: ScopeId)
    requires Rooted(parents)
    ensures forall i :: 0 <= i < |Chain(parents, s)| ==> Chain(parents, s)[i] in parents && Chain(parents, s)[i] <= s
    ensures forall i, j :: 0 <= i < j < |Chain(parents, s)| ==> Chain(parents, s)[j] < Chain(parents, s)[i]
    decreases if s in parents then s else 0
  {
    if s in parents { ChainBelow(parents, parents[s]); }
  }

  /** A new scope does not change the ancestry of the old ones. */
  lemma {:induction false} ChainStays(parents: Lineage, n: ScopeId, p: ScopeId, s: ScopeId)
    requires Rooted(parents) && n !in parents && 0 <= p < n && (p == ROOT || p in parents) && s != n
    requires forall c :: c in parents ==> c < n
    ensures Rooted(parents[n := p]) && Chain(parents[n := p], s) == Chain(parents, s)
    decreases if s in parents then s else 0
  {
    if s in parents { ChainStays(parents, n, p, parents[s]); }
  }

  // References.

  function CountOf(items: seq<Item<ScopeId>>, s: ScopeId): (n: nat) {
    if items == [] then 0 else CountOf(items[..|items| - 1], s) + if items[|items| - 1].value == s then 1 else 0
  }

  lemma {:induction false} CountOfAppend(items: seq<Item<ScopeId>>, x: Item<ScopeId>, s: ScopeId)
    ensures CountOf(items + [x], s) == CountOf(items, s) + if x.value == s then 1 else 0
  {
    assert (items + [x])[..|items|] == items;
  }

  lemma {:induction false} CountOfHead(items: seq<Item<ScopeId>>, s: ScopeId)
    requires items != []
    ensures CountOf(items, s) == CountOf(items[1..], s) + if items[0].value == s then 1 else 0
  {
    var n := |items| - 1;
    if n > 0 {
      CountOfHead(items[..n], s);
      assert items[..n][1..] == items[1..][..n - 1];
    }
  }

  lemma {:induction false} CountOfNone(items: seq<Item<ScopeId>>, s: ScopeId)
    requires forall i :: 0 <= i < |items| ==> items[i].value != s
    ensures CountOf(items, s) == 0
  {
    if items != [] { CountOfNone(items[..|items| - 1], s); }
  }

  lemma {:induction false} CountOfSome(items: seq<Item<ScopeId>>, s: ScopeId)
    ensures CountOf(items, s) > 0 <==> exists i :: 0 <= i < |items| && items[i].value == s
  {
    if items != [] {
      var n := |items| - 1;
      CountOfSome(items[..n], s);
      assert items[n].value == s || forall i :: 0 <= i < |items| && items[i].value == s ==> items[..n][i].value == s;
    }
  }

  function Children(scopes: Store, p: ScopeId): (r: set<ScopeId>) {
    set c | c in scopes && scopes[c].parent == p
  }

  /** Who refers to s: the device, the tracker, the children, and `extra` if it is s. */
  function Uses(scopes: Store, s: ScopeId, current: ScopeId, held: seq<Item<ScopeId>>, extra: ScopeId): (n: nat) {
    (if s == current then 1 else 0) + CountOf(held, s) + |Children(scopes, s)| + (if s == extra then 1 else 0)
  }

  ghost predicate ScopeOk(scopes: Store, s: ScopeId, current: ScopeId, held: seq<Item<ScopeId>>, extra: ScopeId,
                          parents: Lineage) {
    && s in scopes && s in parents && scopes[s].parent == parents[s]
    && (parents[s] == ROOT || parents[s] in scopes)
    && 0 < scopes[s].refs == Uses(scopes, s, current, held, extra)
  }

  predicate Known(s: ScopeId, scopes: Store) {
    s == ROOT || s in scopes
  }

  predicate AllKnown(items: seq<Item<ScopeId>>, scopes: Store) {
    forall i :: 0 <= i < |items| ==> Known(items[i].value, scopes)
  }

  /** Scopes live exactly as long as they are referred to; `extra` is a reference about to be dropped. */
  ghost predicate StoreOk(scopes: Store, current: ScopeId, held: seq<Item<ScopeId>>, extra: ScopeId, parents: Lineage,
                          bound: ScopeId) {
    && Rooted(parents) && (forall c :: c in parents ==> c < bound) && 0 < bound
    && Known(current, scopes) && Known(extra, scopes) && AllKnown(held, scopes)
    && (forall s {:trigger ScopeOk(scopes, s, current, held, extra, parents)} :: s in scopes ==>
      ScopeOk(scopes, s, current, held, extra, parents))
  }

  /** The ancestors of a live scope are live. */
  lemma {:induction false} AncestorsLive(scopes: Store, current: ScopeId, held: seq<Item<ScopeId>>, extra: ScopeId,
                                         parents: Lineage, bound: ScopeId, c: ScopeId, s: ScopeId)
    requires StoreOk(scopes, current, held, extra, parents, bound) && Known(c, scopes) && Under(parents, c, s)
    ensures s in scopes
    decreases if c in parents then c else 0
  {
    assert c in scopes ==> ScopeOk(scopes, c, current, held, extra, parents);
    if c != s { AncestorsLive(scopes, current, held, extra, parents, bound, parents[c], s); }
  }

  /** Between a scope and a live descendant there is a live child. */
  lemma {:induction false} ChildOnTheWay(scopes: Store, current: ScopeId, held: seq<Item<ScopeId>>, extra: ScopeId,
                                         parents: Lineage, bound: ScopeId, c: ScopeId, s: ScopeId)
    returns (child: ScopeId)
    requires StoreOk(scopes, current, held, extra, parents, bound) && c in scopes && Under(parents, c, s) && c != s
    ensures child in Children(scopes, s) && Under(parents, c, child)
    decreases c
  {
    assert ScopeOk(scopes, c, current, held, extra, parents);
    if parents[c] == s {
      child := c;
    } else {
      child := ChildOnTheWay(scopes, current, held, extra, parents, bound, parents[c], s);
    }
  }

  lemma {:induction false} UnderTransitive(parents: Lineage, a: ScopeId, b: ScopeId, c: ScopeId)
    requires Rooted(parents) && Under(parents, a, b) && Under(parents, b, c)
    ensures Under(parents, a, c)
    decreases if a in parents then a else 0
  {
    if a != b { UnderTransitive(parents, parents[a], b, c); }
  }

  lemma {:induction false} SomeChild(scopes: Store, s: ScopeId) returns (c: ScopeId)
    requires |Children(scopes, s)| > 0
    ensures c in scopes && scopes[c].parent == s
  {
    c := SomeElement(Children(scopes, s));
  }

  ghost predicate SomethingUnder(parents: Lineage, current: ScopeId, held: seq<Item<ScopeId>>, s: ScopeId)
    requires Rooted(parents)
  {
    Under(parents, current, s) || exists i :: 0 <= i < |held| && Under(parents, held[i].value, s)
  }

  lemma {:induction false} HeldUp(scopes: Store, current: ScopeId, held: seq<Item<ScopeId>>, parents: Lineage,
                                  bound: ScopeId, s: ScopeId)
    requires StoreOk(scopes, current, held, ROOT, parents, bound) && s in scopes
    ensures SomethingUnder(parents, current, held, s)
    decreases bound - s
  {
    assert ScopeOk(scopes, s, current, held, ROOT, parents);
    CountOfSome(held, s);
    assert Under(parents, s, s);
    if s != current && CountOf(held, s) == 0 {
      var c := SomeChild(scopes, s);
      assert ScopeOk(scopes, c, current, held, ROOT, parents);
      assert Under(parents, c, s);
      HeldUp(scopes, current, held, parents, bound, c);
      if Under(parents, current, c) {
        UnderTransitive(parents, current, c, s);
      } else {
        var i :| 0 <= i < |held| && Under(parents, held[i].value, c);
        UnderTransitive(parents, held[i].value, c, s);
      }
    }
  }

  /** A scope lives exactly as long as the current scope or something in flight is under it. */
  lemma {:induction false} LivesExactlyWhile(scopes: Store, current: ScopeId, held: seq<Item<ScopeId>>,
                                             parents: Lineage, bound: ScopeId, s: ScopeId)
    requires StoreOk(scopes, current, held, ROOT, parents, bound) && s in parents
    ensures s in scopes <==> SomethingUnder(parents, current, held, s)
  {
    if s in scopes {
      HeldUp(scopes, current, held, parents, bound, s);
    }
    if Under(parents, current, s) {
      AncestorsLive(scopes, current, held, ROOT, parents, bound, current, s);
    } else if SomethingUnder(parents, current, held, s) {
      var i :| 0 <= i < |held| && Under(parents, held[i].value, s);
      AncestorsLive(scopes, current, held, ROOT, parents, bound, held[i].value, s);
    }
  }

  // The steps, on the store.

  function Referenced(scopes: Store, s: ScopeId): (r: Store) {
    if s in scopes then scopes[s := scopes[s].(refs := scopes[s].refs + 1)] else scopes
  }

  function Dropped(scopes: Store, s: ScopeId): (r: Store)
    requires s in scopes && scopes[s].refs > 0
  {
    scopes[s := scopes[s].(refs := scopes[s].refs - 1)]
  }

  function Pushed(scopes: Store, current: ScopeId, n: ScopeId, filter: ErrorFilter): (r: Store) {
    Referenced(scopes, current)[n := Scope(current, filter, 1, false, None)]
  }

  lemma {:induction false} SameChildren(scopes: Store, scopes': Store, p: ScopeId)
    requires scopes'.Keys == scopes.Keys && forall c :: c in scopes ==> scopes'[c].parent == scopes[c].parent
    ensures Children(scopes', p) == Children(scopes, p)
  {
    assert forall c :: c in Children(scopes', p) <==> c in Children(scopes, p);
  }

  /** The device's reference to the scope that was current becomes that of the new one. */
  lemma {:induction false} PushedThenDropped(scopes: Store, current: ScopeId, n: ScopeId, f: ErrorFilter,
                                             filters: Filters)
    requires n !in scopes && current != n && (current in scopes ==> scopes[current].refs > 0)
    requires FiltersOk(Pushed(scopes, current, n, f), filters)
    ensures var pushed := Pushed(scopes, current, n, f);
      && pushed.Keys == scopes.Keys + {n} && (current in scopes ==> pushed[current].refs > 1)
      && (current in scopes ==> Dropped(pushed, current) == scopes[n := Scope(current, f, 1, false, None)])
      && (current !in scopes ==> pushed == scopes[n := Scope(current, f, 1, false, None)])
    ensures FiltersOk(scopes[n := Scope(current, f, 1, false, None)], filters)
  {
    SameFilters(Pushed(scopes, current, n, f), scopes[n := Scope(current, f, 1, false, None)], filters);
  }

  /** Dropping a reference that is not the last one. */
  lemma {:induction false} DropStep(scopes: Store, current: ScopeId, held: seq<Item<ScopeId>>, s: ScopeId,
                                    parents: Lineage, bound: ScopeId)
    requires StoreOk(scopes, current, held, s, parents, bound) && s in scopes && scopes[s].refs > 1
    ensures StoreOk(Dropped(scopes, s), current, held, ROOT, parents, bound)
  {
    var scopes' := Dropped(scopes, s);
    forall c | c in scopes' ensures ScopeOk(scopes', c, current, held, ROOT, parents) {
      assert ScopeOk(scopes, c, current, held, s, parents);
      SameChildren(scopes, scopes', c);
    }
  }

  lemma {:induction false} RemovedChildren(scopes: Store, s: ScopeId, p: ScopeId)
    requires s in scopes
    ensures Children(scopes - {s}, p) == Children(scopes, p) - {s}
    ensures |Children(scopes - {s}, p)| == |Children(scopes, p)| - if scopes[s].parent == p then 1 else 0
  {
    assert Children(scopes - {s}, p) == Children(scopes, p) - {s};
  }

  /** Dropping the last reference: the scope goes, and with it its reference to its parent. */
  lemma {:induction false} RemoveStep(scopes: Store, current: ScopeId, held: seq<Item<ScopeId>>, s: ScopeId,
                                      parents: Lineage, bound: ScopeId)
    requires StoreOk(scopes, current, held, s, parents, bound) && s in scopes && scopes[s].refs == 1
    ensures s != current && CountOf(held, s) == 0 && Children(scopes, s) == {} && s in parents
    ensures StoreOk(scopes - {s}, current, held, parents[s], parents, bound)
  {
    assert ScopeOk(scopes, s, current, held, s, parents);
    assert s != current && CountOf(held, s) == 0 && |Children(scopes, s)| == 0;
    var scopes' := scopes - {s};
    forall c | c in scopes' ensures ScopeOk(scopes', c, current, held, parents[s], parents) {
      assert ScopeOk(scopes, c, current, held, s, parents);
      RemovedChildren(scopes, s, c);
      assert c in Children(scopes, s) <==> parents[c] == s;
    }
    CountOfSome(held, s);
    forall i | 0 <= i < |held| ensures Known(held[i].value, scopes') { assert Known(held[i].value, scopes); }
  }

  lemma {:induction false} TrackStep(scopes: Store, current: ScopeId, held: seq<Item<ScopeId>>, parents: Lineage,
                                     bound: ScopeId, serial: Serial)
    requires StoreOk(scopes, current, held, ROOT, parents, bound)
    ensures StoreOk(Referenced(scopes, current), current, held + [Item(serial, current)], ROOT, parents, bound)
  {
    var scopes', held' := Referenced(scopes, current), held + [Item(serial, current)];
    forall c | c in scopes' ensures ScopeOk(scopes', c, current, held', ROOT, parents) {
      assert ScopeOk(scopes, c, current, held, ROOT, parents);
      SameChildren(scopes, scopes', c);
      CountOfAppend(held, Item(serial, current), c);
    }
    forall i | 0 <= i < |held'|
      ensures Known(held'[i].value, scopes')
    {
      assert i < |held| ==> Known(held[i].value, scopes);
    }
  }

  lemma {:induction false} ForgetStep(scopes: Store, current: ScopeId, held: seq<Item<ScopeId>>, parents: Lineage,
                                      bound: ScopeId)
    requires StoreOk(scopes, current, held, ROOT, parents, bound) && held != []
    ensures StoreOk(scopes, current, held[1..], held[0].value, parents, bound)
  {
    assert Known(held[0].value, scopes);
    forall c | c in scopes ensures ScopeOk(scopes, c, current, held[1..], held[0].value, parents) {
      assert ScopeOk(scopes, c, current, held, ROOT, parents);
      CountOfHead(held, c);
    }
    forall i | 0 <= i < |held[1..]|
      ensures Known(held[1..][i].value, scopes)
    {
      assert Known(held[i + 1].value, scopes);
    }
  }

  /** The new scope refers to the current one and takes its place. */
  lemma {:induction false} PushStep(scopes: Store, current: ScopeId, held: seq<Item<ScopeId>>, parents: Lineage,
                                    n: ScopeId, filter: ErrorFilter)
    requires StoreOk(scopes, current, held, ROOT, parents, n)
    ensures n !in scopes && n !in parents && (current in scopes ==> scopes[current].refs > 0)
    ensures StoreOk(Pushed(scopes, current, n, filter), n, held, current, parents[n := current], n + 1)
  {
    assert current in scopes ==> ScopeOk(scopes, current, current, held, ROOT, parents);
    assert n in scopes ==> ScopeOk(scopes, n, current, held, ROOT, parents);
    var scopes', parents' := Pushed(scopes, current, n, filter), parents[n := current];
    forall i | 0 <= i < |held|
      ensures Known(held[i].value, scopes') && held[i].value != n
    {
      assert Known(held[i].value, scopes);
    }
    CountOfNone(held, n);
    forall c | c in scopes' ensures ScopeOk(scopes', c, n, held, current, parents') {
      AddedChildren(scopes, current, n, filter, c);
      if c == n {
        forall d | d in scopes
          ensures scopes[d].parent != n
        {
          assert ScopeOk(scopes, d, current, held, ROOT, parents);
        }
        assert Children(scopes, n) == {};
      } else {
        assert ScopeOk(scopes, c, current, held, ROOT, parents);
      }
    }
  }

  lemma {:induction false} AddedChildren(scopes: Store, current: ScopeId, n: ScopeId, filter: ErrorFilter, p: ScopeId)
    requires n !in scopes
    ensures |Children(Pushed(scopes, current, n, filter), p)| == |Children(scopes, p)| + if p == current then 1 else 0
  {
    var scopes' := Pushed(scopes, current, n, filter);
    assert Children(scopes', p) == Children(scopes, p) + if p == current then {n} else {};
  }

  /** The parent takes the place of the current scope. */
  lemma {:induction false} PopStep(scopes: Store, current: ScopeId, held: seq<Item<ScopeId>>, parents: Lineage,
                                   bound: ScopeId, callback: bool)
    requires StoreOk(scopes, current, held, ROOT, parents, bound) && current in scopes
    ensures current in parents && scopes[current].parent == parents[current]
    ensures StoreOk(Referenced(scopes[current := scopes[current].(callback := callback)], parents[current]),
      parents[current], held, current, parents, bound)
  {
    assert ScopeOk(scopes, current, current, held, ROOT, parents);
    var p := parents[current];
    var scopes' := Referenced(scopes[current := scopes[current].(callback := callback)], p);
    forall c | c in scopes' ensures ScopeOk(scopes', c, p, held, current, parents) {
      assert ScopeOk(scopes, c, current, held, ROOT, parents);
      SameChildren(scopes, scopes', c);
    }
    forall i | 0 <= i < |held| ensures Known(held[i].value, scopes') { assert Known(held[i].value, scopes); }
  }

  // Routing errors.

  predicate Matches(filter: ErrorFilter, kind: ErrorType) {
    (kind == Validation && filter == FilterValidation) || (kind == OutOfMemory && filter == FilterOutOfMemory)
  }

  /** Errors that all scopes record. */
  predicate Fatal(kind: ErrorType) {
    kind == Unknown || kind == DeviceLost
  }

  predicate AllLive(chain: seq<ScopeId>, scopes: Store) {
    forall i :: 0 <= i < |chain| ==> chain[i] in scopes
  }

  /** The filter that every scope there ever was has been pushed with. */
  type Filters = map<ScopeId, ErrorFilter>

  function FilterOf(filters: Filters, s: ScopeId): (r: ErrorFilter) {
    if s in filters then filters[s] else NoFilter
  }

  /** The k-th scope of the chain captures the error: it is fatal, or the filter is the first to match. */
  predicate CapturesAt(chain: seq<ScopeId>, filters: Filters, kind: ErrorType, k: nat)
    requires k < |chain|
  {
    Fatal(kind) || (Matches(FilterOf(filters, chain[k]), kind) && NoMatch(filters, chain, k, kind))
  }

  /** None of the first k scopes of the chain has a filter that matches. */
  predicate NoMatch(filters: Filters, chain: seq<ScopeId>, k: nat, kind: ErrorType)
    requires k <= |chain|
  {
    forall j :: 0 <= j < k ==> !Matches(FilterOf(filters, chain[j]), kind)
  }

  ghost function Captors(chain: seq<ScopeId>, filters: Filters, kind: ErrorType): (r: set<ScopeId>) {
    set k | 0 <= k < |chain| && CapturesAt(chain, filters, kind, k) :: chain[k]
  }

  /** An error that the root sees too. */
  predicate Uncaptured(chain: seq<ScopeId>, filters: Filters, kind: ErrorType) {
    Fatal(kind) || NoMatch(filters, chain, |chain|, kind)
  }

  /** An error that is raised under `from` is for s: of the scopes between them, s is the nearest with the
      filter for it; errors that no filter is for are for every scope. */
  ghost predicate Takes(parents: Lineage, filters: Filters, from: ScopeId, kind: ErrorType, s: ScopeId)
    requires Rooted(parents)
  {
    && Under(parents, from, s)
    && match kind
       case Validation =>
         && FilterOf(filters, s) == FilterValidation
         && forall c :: Under(parents, from, c) && Under(parents, c, s) && FilterOf(filters, c) == FilterValidation ==>
              c == s
       case OutOfMemory =>
         && FilterOf(filters, s) == FilterOutOfMemory
         && forall c :: Under(parents, from, c) && Under(parents, c, s) && FilterOf(filters, c) == FilterOutOfMemory ==>
              c == s
       case Unknown => true
       case DeviceLost => true
  }

  /** An error that the root sees: no scope has the filter for it, or there is no filter for it. */
  ghost predicate Escapes(parents: Lineage, filters: Filters, from: ScopeId, kind: ErrorType)
    requires Rooted(parents)
  {
    match kind
    case Validation => forall c :: Under(parents, from, c) ==> FilterOf(filters, c) != FilterValidation
    case OutOfMemory => forall c :: Under(parents, from, c) ==> FilterOf(filters, c) != FilterOutOfMemory
    case Unknown => true
    case DeviceLost => true
  }

  /** What comes later in a chain is an ancestor of what comes earlier, and the other way round. */
  lemma {:induction false} ChainOrder(parents: Lineage, from: ScopeId, i: nat, j: nat)
    requires Rooted(parents) && i < |Chain(parents, from)| && j < |Chain(parents, from)|
    ensures Under(parents, Chain(parents, from)[i], Chain(parents, from)[j]) <==> i <= j
    decreases if from in parents then from else 0
  {
    var chain := Chain(parents, from);
    assert chain == [from] + Chain(parents, parents[from]);
    if i > 0 && j > 0 {
      ChainOrder(parents, parents[from], i - 1, j - 1);
    } else if i > 0 {
      ChainBelow(parents, from);
      ChainBelow(parents, chain[i]);
    }
  }

  /** The captors are the scopes that take the error. */
  lemma {:induction false} CaptorsTake(parents: Lineage, filters: Filters, from: ScopeId, kind: ErrorType, s: ScopeId)
    requires Rooted(parents)
    ensures s in Captors(Chain(parents, from), filters, kind) <==> Takes(parents, filters, from, kind, s)
    ensures Uncaptured(Chain(parents, from), filters, kind) <==> Escapes(parents, filters, from, kind)
  {
    var chain := Chain(parents, from);
    if s in Captors(chain, filters, kind) {
      var k :| 0 <= k < |chain| && CapturesAt(chain, filters, kind, k) && chain[k] == s;
      forall c | Under(parents, from, c) && Under(parents, c, s) && c != s && !Fatal(kind)
        ensures !Matches(FilterOf(filters, c), kind)
      {
        var j :| 0 <= j < |chain| && chain[j] == c;
        ChainOrder(parents, from, j, k);
      }
    }
    if Takes(parents, filters, from, kind, s) {
      var k :| 0 <= k < |chain| && chain[k] == s;
      forall j | 0 <= j < k && !Fatal(kind) ensures !Matches(FilterOf(filters, chain[j]), kind) {
        ChainOrder(parents, from, j, k);
        ChainBelow(parents, from);
      }
      assert CapturesAt(chain, filters, kind, k);
    }
    assert NoMatch(filters, chain, |chain|, kind) <==>
      forall c :: Under(parents, from, c) ==> !Matches(FilterOf(filters, c), kind);
  }

  /** An error, and the scope that was current when it was raised. */
  datatype Raised = Raised(error: Error, scope: ScopeId)

  /** The errors that a scope captures, by the filters and the ancestry alone. */
  ghost function RoutedTo(raised: seq<Raised>, parents: Lineage, filters: Filters, s: ScopeId): (r: seq<Error>)
    requires Rooted(parents)
  {
    if raised == [] then []
    else
      var n := |raised| - 1;
      RoutedTo(raised[..n], parents, filters, s)
        + if s in Captors(Chain(parents, raised[n].scope), filters, raised[n].error.kind) then [raised[n].error] else []
  }

  /** The errors that reach the root. */
  function Unrouted(raised: seq<Raised>, parents: Lineage, filters: Filters): (r: seq<Error>)
    requires Rooted(parents)
  {
    if raised == [] then []
    else
      var n := |raised| - 1;
      Unrouted(raised[..n], parents, filters)
        + if Uncaptured(Chain(parents, raised[n].scope), filters, raised[n].error.kind) then [raised[n].error] else []
  }

  /** Record the error in these scopes, unless they have one. */
  function Marked(scopes: Store, ids: set<ScopeId>, e: Error): (r: Store)
    ensures r.Keys == scopes.Keys
  {
    map s | s in scopes :: if s in ids && scopes[s].error.None? then scopes[s].(error := Some(e)) else scopes[s]
  }

  /** The errors routed to each scope, in order. */
  type Routed = map<ScopeId, seq<Error>>

  function Earliest(errors: seq<Error>): (r: Option<Error>) {
    if errors == [] then None else Some(errors[0])
  }

  function First(routed: Routed, s: ScopeId): (r: Option<Error>) {
    if s in routed then Earliest(routed[s]) else None
  }

  ghost function RouteTo(routed: Routed, ids: set<ScopeId>, e: Error): (r: Routed)
    ensures r.Keys == routed.Keys
  {
    map s | s in routed :: if s in ids then routed[s] + [e] else routed[s]
  }

  lemma {:induction false} MarkedKeepsShape(scopes: Store, ids: set<ScopeId>, e: Error, current: ScopeId,
                                            held: seq<Item<ScopeId>>, parents: Lineage, bound: ScopeId)
    requires StoreOk(scopes, current, held, ROOT, parents, bound)
    ensures StoreOk(Marked(scopes, ids, e), current, held, ROOT, parents, bound)
  {
    var scopes' := Marked(scopes, ids, e);
    forall c | c in scopes' ensures ScopeOk(scopes', c, current, held, ROOT, parents) {
      assert ScopeOk(scopes, c, current, held, ROOT, parents);
      SameChildren(scopes, scopes', c);
    }
    forall i | 0 <= i < |held| ensures Known(held[i].value, scopes') { assert Known(held[i].value, scopes); }
  }

  // The history.

  predicate FilterOk(scopes: Store, filters: Filters, s: ScopeId) {
    s in scopes && s in filters && scopes[s].filter == filters[s]
  }

  ghost predicate FiltersOk(scopes: Store, filters: Filters) {
    forall s {:trigger FilterOk(scopes, filters, s)} :: s in scopes ==> FilterOk(scopes, filters, s)
  }

  predicate RaisedOk(raised: seq<Raised>, parents: Lineage) {
    forall i :: 0 <= i < |raised| ==> raised[i].scope == ROOT || raised[i].scope in parents
  }

  ghost predicate RouteOk(routed: Routed, raised: seq<Raised>, parents: Lineage, filters: Filters, s: ScopeId)
    requires Rooted(parents)
  {
    s in routed && routed[s] == RoutedTo(raised, parents, filters, s)
  }

  /** The scopes have the filters they were pushed with, and what was routed follows from them. */
  ghost predicate RoutingOk(parents: Lineage, filters: Filters, raised: seq<Raised>, routed: Routed,
                            uncaptured: seq<Error>)
    requires Rooted(parents)
  {
    && filters.Keys == parents.Keys && RaisedOk(raised, parents) && uncaptured == Unrouted(raised, parents, filters)
    && (forall s {:trigger RouteOk(routed, raised, parents, filters, s)} :: s in parents ==>
          RouteOk(routed, raised, parents, filters, s))
  }

  lemma {:induction false} SameFilters(scopes: Store, scopes': Store, filters: Filters)
    requires FiltersOk(scopes, filters)
    requires forall s :: s in scopes' ==> s in scopes && scopes'[s].filter == scopes[s].filter
    ensures FiltersOk(scopes', filters)
  {
    forall s | s in scopes' ensures FilterOk(scopes', filters, s) { assert FilterOk(scopes, filters, s); }
  }

  lemma {:induction false} PushedFilters(scopes: Store, current: ScopeId, n: ScopeId, f: ErrorFilter, filters: Filters)
    requires FiltersOk(scopes, filters) && n !in scopes
    ensures FiltersOk(Pushed(scopes, current, n, f), filters[n := f])
  {
    var scopes' := Pushed(scopes, current, n, f);
    forall s | s in scopes' ensures FilterOk(scopes', filters[n := f], s) {
      assert s != n ==> FilterOk(scopes, filters, s);
    }
  }

  lemma {:induction false} CaptorsOnChain(chain: seq<ScopeId>, filters: Filters, filters': Filters, kind: ErrorType)
    requires forall i :: 0 <= i < |chain| ==> FilterOf(filters', chain[i]) == FilterOf(filters, chain[i])
    ensures Captors(chain, filters', kind) == Captors(chain, filters, kind)
    ensures Uncaptured(chain, filters', kind) <==> Uncaptured(chain, filters, kind)
  {
    forall k | 0 <= k < |chain| ensures CapturesAt(chain, filters', kind, k) <==> CapturesAt(chain, filters, kind, k) {
      assert NoMatch(filters', chain, k, kind) <==> NoMatch(filters, chain, k, kind);
    }
  }

  /** A new scope changes nothing that was routed, and has nothing routed to it. */
  lemma {:induction false} RoutingStays(raised: seq<Raised>, parents: Lineage, filters: Filters, n: ScopeId, p: ScopeId,
                                        f: ErrorFilter, s: ScopeId)
    requires Rooted(parents) && Rooted(parents[n := p]) && n !in parents && 0 <= p < n && (p == ROOT || p in parents)
    requires (forall c :: c in parents ==> c < n) && RaisedOk(raised, parents) && n > ROOT
    ensures s != n ==> RoutedTo(raised, parents[n := p], filters[n := f], s) == RoutedTo(raised, parents, filters, s)
    ensures RoutedTo(raised, parents[n := p], filters[n := f], n) == []
    ensures Unrouted(raised, parents[n := p], filters[n := f]) == Unrouted(raised, parents, filters)
  {
    if raised != [] {
      var x := raised[|raised| - 1];
      RoutingStays(raised[..|raised| - 1], parents, filters, n, p, f, s);
      ChainStays(parents, n, p, x.scope);
      ChainBelow(parents, x.scope);
      var chain := Chain(parents, x.scope);
      assert forall i :: 0 <= i < |chain| ==> chain[i] in parents;
      CaptorsOnChain(chain, filters, filters[n := f], x.error.kind);
    }
  }

  lemma {:induction false} PushedRouting(parents: Lineage, filters: Filters, raised: seq<Raised>, routed: Routed,
                                         uncaptured: seq<Error>, n: ScopeId, p: ScopeId, f: ErrorFilter)
    requires Rooted(parents) && RoutingOk(parents, filters, raised, routed, uncaptured) && n > ROOT
    requires Rooted(parents[n := p]) && n !in parents && 0 <= p < n && (p == ROOT || p in parents)
    requires forall c :: c in parents ==> c < n
    ensures RoutingOk(parents[n := p], filters[n := f], raised, routed[n := []], uncaptured)
  {
    var parents', filters', routed' := parents[n := p], filters[n := f], routed[n := []];
    forall s | s in parents' ensures RouteOk(routed', raised, parents', filters', s) {
      RoutingStays(raised, parents, filters, n, p, f, s);
      assert s != n ==> RouteOk(routed, raised, parents, filters, s);
    }
    RoutingStays(raised, parents, filters, n, p, f, n);
  }

  lemma {:induction false} RaisedRouting(parents: Lineage, filters: Filters, raised: seq<Raised>, routed: Routed,
                                         uncaptured: seq<Error>, x: Raised)
    requires Rooted(parents) && RoutingOk(parents, filters, raised, routed, uncaptured)
    requires x.scope == ROOT || x.scope in parents
    ensures var chain := Chain(parents, x.scope);
      RoutingOk(parents, filters, raised + [x], RouteTo(routed, Captors(chain, filters, x.error.kind), x.error),
                uncaptured + if Uncaptured(chain, filters, x.error.kind) then [x.error] else [])
  {
    var raised' := raised + [x];
    assert raised'[..|raised|] == raised;
    var captors := Captors(Chain(parents, x.scope), filters, x.error.kind);
    var routed' := RouteTo(routed, captors, x.error);
    forall s | s in parents ensures RouteOk(routed', raised', parents, filters, s) {
      assert RouteOk(routed, raised, parents, filters, s);
    }
  }

  ghost predicate ReportsOk(scopes: Store, parents: Lineage, routed: Routed, log: seq<Report>)
    requires Rooted(parents)
  {
    && (forall i :: 0 <= i < |log| ==> log[i].scope in parents && log[i].scope !in scopes)
    && (forall i :: 0 <= i < |log| ==> log[i].error == First(routed, log[i].scope))
    && (forall i, j :: 0 <= i < j < |log| ==> !Under(parents, log[j].scope, log[i].scope))
  }

  predicate Reported(log: seq<Report>, s: ScopeId) {
    exists i :: 0 <= i < |log| && log[i].scope == s
  }

  /** What is known of a scope that was created: it is on the stack, or popped; live, or reported. */
  ghost predicate LifeOk(scopes: Store, s: ScopeId, parents: Lineage, current: ScopeId, popped: map<ScopeId, bool>,
                         routed: Routed, log: seq<Report>)
    requires Rooted(parents)
  {
    && s in routed
    && (s !in popped ==> s in scopes && Under(parents, current, s))
    && (s in scopes ==> scopes[s].error == First(routed, s) && (scopes[s].callback <==> s in popped && popped[s]))
    && (s !in scopes && s in popped ==> (popped[s] <==> Reported(log, s)))
  }

  ghost predicate HistoryOk(scopes: Store, parents: Lineage, current: ScopeId, popped: map<ScopeId, bool>,
                            routed: Routed, log: seq<Report>)
    requires Rooted(parents)
  {
    && ReportsOk(scopes, parents, routed, log) && popped.Keys <= parents.Keys
    && (forall s {:trigger LifeOk(scopes, s, parents, current, popped, routed, log)} :: s in parents ==>
      LifeOk(scopes, s, parents, current, popped, routed, log))
  }

  /** Everything tracked whose serial has not passed is still in flight. */
  predicate TracksOk(tracks: seq<Item<ScopeId>>, held: seq<Item<ScopeId>>, completed: Serial) {
    forall i :: 0 <= i < |tracks| && tracks[i].serial > completed ==> tracks[i] in held
  }

  function ReportOf(scopes: Store, s: ScopeId): (r: seq<Report>)
    requires s in scopes
  {
    if scopes[s].callback then [Report(s, scopes[s].error)] else []
  }

  /** When a scope goes, it was popped, none of its ancestors has reported, and it reports. */
  lemma {:induction false} RemovedHistory(scopes: Store, current: ScopeId, held: seq<Item<ScopeId>>, s: ScopeId,
                                          parents: Lineage, bound: ScopeId, popped: map<ScopeId, bool>, routed: Routed,
                                          log: seq<Report>)
    requires StoreOk(scopes, current, held, s, parents, bound) && s in scopes && scopes[s].refs == 1
    requires HistoryOk(scopes, parents, current, popped, routed, log)
    ensures HistoryOk(scopes - {s}, parents, current, popped, routed, log + ReportOf(scopes, s))
  {
    var log' := log + ReportOf(scopes, s);
    RemoveStep(scopes, current, held, s, parents, bound);
    assert LifeOk(scopes, s, parents, current, popped, routed, log);
    forall i | 0 <= i < |log| ensures !Under(parents, s, log[i].scope) {
      if Under(parents, s, log[i].scope) {
        AncestorsLive(scopes, current, held, s, parents, bound, s, log[i].scope);
      }
    }
    assert s in popped by {
      if s !in popped { OnlyPoppedGo(scopes, current, held, s, parents, bound); }
    }
    forall c | c in parents ensures LifeOk(scopes - {s}, c, parents, current, popped, routed, log') {
      assert LifeOk(scopes, c, parents, current, popped, routed, log);
      ReportedAfter(scopes, s, log, c);
    }
  }

  lemma {:induction false} ReportedAfter(scopes: Store, s: ScopeId, log: seq<Report>, c: ScopeId)
    requires s in scopes
    ensures Reported(log + ReportOf(scopes, s), c) <==> Reported(log, c) || (c == s && scopes[s].callback)
  {
    var log' := log + ReportOf(scopes, s);
    if Reported(log, c) {
      var i :| 0 <= i < |log| && log[i].scope == c;
      assert log'[i].scope == c;
    }
    if c == s && scopes[s].callback {
      assert log'[|log|].scope == c;
    }
  }

  /** The current scope and its ancestors are referred to. */
  lemma {:induction false} OnlyPoppedGo(scopes: Store, current: ScopeId, held: seq<Item<ScopeId>>, s: ScopeId,
                                        parents: Lineage, bound: ScopeId)
    requires StoreOk(scopes, current, held, s, parents, bound) && s in scopes && Children(scopes, s) == {}
    requires s != current
    ensures !Under(parents, current, s)
  {
    if Under(parents, current, s) {
      var child := ChildOnTheWay(scopes, current, held, s, parents, bound, current, s);
    }
  }

  lemma {:induction false} SameHistory(scopes: Store, scopes': Store, parents: Lineage, current: ScopeId,
                                       popped: map<ScopeId, bool>, routed: Routed, log: seq<Report>)
    requires Rooted(parents) && HistoryOk(scopes, parents, current, popped, routed, log) && scopes'.Keys == scopes.Keys
    requires forall s :: s in scopes ==>
      scopes'[s].error == scopes[s].error && scopes'[s].callback == scopes[s].callback
    ensures HistoryOk(scopes', parents, current, popped, routed, log)
  {
    forall s | s in parents ensures LifeOk(scopes', s, parents, current, popped, routed, log) {
      assert LifeOk(scopes, s, parents, current, popped, routed, log);
    }
  }

  lemma {:induction false} PushedHistory(scopes: Store, current: ScopeId, held: seq<Item<ScopeId>>, parents: Lineage,
                                         n: ScopeId, filter: ErrorFilter, popped: map<ScopeId, bool>, routed: Routed,
                                         log: seq<Report>)
    requires StoreOk(scopes, current, held, ROOT, parents, n)
    requires HistoryOk(scopes, parents, current, popped, routed, log)
    ensures n !in parents && n !in scopes && Rooted(parents[n := current])
    ensures HistoryOk(Pushed(scopes, current, n, filter), parents[n := current], n, popped, routed[n := []], log)
  {
    PushStep(scopes, current, held, parents, n, filter);
    assert current in scopes ==> ScopeOk(scopes, current, current, held, ROOT, parents);
    var scopes', parents', routed' := Pushed(scopes, current, n, filter), parents[n := current], routed[n := []];
    ChainStays(parents, n, current, current);
    assert Chain(parents', n) == [n] + Chain(parents, current);
    forall s | s in parents' ensures LifeOk(scopes', s, parents', n, popped, routed', log) {
      if s != n {
        assert LifeOk(scopes, s, parents, current, popped, routed, log);
      }
    }
    forall i | 0 <= i < |log| ensures Chain(parents', log[i].scope) == Chain(parents, log[i].scope) {
      ChainStays(parents, n, current, log[i].scope);
    }
    PushedReports(scopes, scopes', parents, parents', routed, routed', log, n);
  }

  lemma {:induction false} PushedReports(scopes: Store, scopes': Store, parents: Lineage, parents': Lineage,
                                         routed: Routed, routed': Routed, log: seq<Report>, n: ScopeId)
    requires Rooted(parents) && Rooted(parents') && ReportsOk(scopes, parents, routed, log)
    requires n !in parents && parents.Keys <= parents'.Keys && scopes'.Keys == scopes.Keys + {n}
    requires routed' == routed[n := []]
    requires forall i :: 0 <= i < |log| ==> Chain(parents', log[i].scope) == Chain(parents, log[i].scope)
    ensures ReportsOk(scopes', parents', routed', log)
  {
  }

  lemma {:induction false} PoppedHistory(scopes: Store, current: ScopeId, held: seq<Item<ScopeId>>, parents: Lineage,
                                         bound: ScopeId, callback: bool, popped: map<ScopeId, bool>, routed: Routed,
                                         log: seq<Report>)
    requires StoreOk(scopes, current, held, ROOT, parents, bound) && current in scopes
    requires HistoryOk(scopes, parents, current, popped, routed, log)
    ensures current in parents
    ensures HistoryOk(Referenced(scopes[current := scopes[current].(callback := callback)], parents[current]), parents,
      parents[current], popped[current := callback], routed, log)
  {
    assert ScopeOk(scopes, current, current, held, ROOT, parents);
    var p, popped' := parents[current], popped[current := callback];
    var scopes' := Referenced(scopes[current := scopes[current].(callback := callback)], p);
    assert Chain(parents, current) == [current] + Chain(parents, p);
    forall s | s in parents ensures LifeOk(scopes', s, parents, p, popped', routed, log) {
      assert LifeOk(scopes, s, parents, current, popped, routed, log);
    }
    assert scopes'.Keys == scopes.Keys;
  }

  /** An error that its captors record. */
  lemma {:induction false} ErrorHistory(scopes: Store, current: ScopeId, held: seq<Item<ScopeId>>, parents: Lineage,
                                        bound: ScopeId, popped: map<ScopeId, bool>, routed: Routed, log: seq<Report>,
                                        filters: Filters, e: Error)
    requires StoreOk(scopes, current, held, ROOT, parents, bound) && FiltersOk(scopes, filters)
    requires HistoryOk(scopes, parents, current, popped, routed, log)
    ensures current == ROOT || current in parents
    ensures var captors := Captors(Chain(parents, current), filters, e.kind);
      && StoreOk(Marked(scopes, captors, e), current, held, ROOT, parents, bound)
      && FiltersOk(Marked(scopes, captors, e), filters)
      && HistoryOk(Marked(scopes, captors, e), parents, current, popped, RouteTo(routed, captors, e), log)
  {
    LiveChain(scopes, current, held, parents, bound);
    assert current in scopes ==> ScopeOk(scopes, current, current, held, ROOT, parents);
    var captors := Captors(Chain(parents, current), filters, e.kind);
    MarkedKeepsShape(scopes, captors, e, current, held, parents, bound);
    MarkedHistory(scopes, parents, current, popped, routed, log, captors, e);
    SameFilters(scopes, Marked(scopes, captors, e), filters);
  }

  lemma {:induction false} MarkedHistory(scopes: Store, parents: Lineage, current: ScopeId, popped: map<ScopeId, bool>,
                                         routed: Routed, log: seq<Report>, ids: set<ScopeId>, e: Error)
    requires Rooted(parents) && HistoryOk(scopes, parents, current, popped, routed, log) && ids <= scopes.Keys
    ensures HistoryOk(Marked(scopes, ids, e), parents, current, popped, RouteTo(routed, ids, e), log)
  {
    var scopes', routed' := Marked(scopes, ids, e), RouteTo(routed, ids, e);
    forall s | s in parents ensures LifeOk(scopes', s, parents, current, popped, routed', log) {
      assert LifeOk(scopes, s, parents, current, popped, routed, log);
    }
  }

  lemma {:induction false} StillTracked(tracks: seq<Item<ScopeId>>, held: seq<Item<ScopeId>>, completed: Serial,
                                        last: Serial)
    requires TracksOk(tracks, held, completed) && Sorted(held) && Between(held, 0, last)
    ensures var rest := Beyond(held, completed);
      && held == UpTo(held, completed) + rest && Sorted(rest) && Between(rest, 0, last)
      && TracksOk(tracks, rest, completed)
  {
    CutQueue(held, completed, last);
    forall i | 0 <= i < |tracks| && tracks[i].serial > completed ensures tracks[i] in Beyond(held, completed) {
      var k :| 0 <= k < |held| && held[k] == tracks[i];
      StaysBeyond(held, completed, k);
    }
  }

  lemma {:induction false} StaysBeyond(held: seq<Item<ScopeId>>, completed: Serial, k: nat)
    requires k < |held| && held[k].serial > completed
    ensures held[k] in Beyond(held, completed)
  {
    var n := |held| - 1;
    if k < n { StaysBeyond(held[..n], completed, k); }
  }

  lemma {:induction false} LiveChain(scopes: Store, current: ScopeId, held: seq<Item<ScopeId>>, parents: Lineage,
                                     bound: ScopeId)
    requires StoreOk(scopes, current, held, ROOT, parents, bound)
    ensures AllLive(Chain(parents, current), scopes)
  {
    forall i | 0 <= i < |Chain(parents, current)| ensures Chain(parents, current)[i] in scopes {
      AncestorsLive(scopes, current, held, ROOT, parents, bound, current, Chain(parents, current)[i]);
    }
  }

  /** The error scope stack of a device, with its tracker. */
  class ScopeStack {
    var lastSubmitted: Serial
    var completed: Serial
    var scopes: Store
    var current: ScopeId
    /** mScopesInFlight. */
    var inFlight: seq<Item<ScopeId>>
    var nextScope: ScopeId

    ghost var parents: Lineage
    ghost var filters: Filters
    /** Every error there was. */
    ghost var raised: seq<Raised>
    /** The scopes that were popped, and whether with a callback. */
    ghost var popped: map<ScopeId, bool>
    /** The errors routed to each scope, and those that reached the root. */
    ghost var routed: Routed
    ghost var uncaptured: seq<Error>
    /** The calls of callbacks of scopes. */
    ghost var log: seq<Report>
    /** Everything that was tracked until a serial. */
    ghost var tracks: seq<Item<ScopeId>>

    ghost predicate SerialsOk()
      reads this
    {
      && completed <= lastSubmitted && Sorted(inFlight) && Between(inFlight, 0, lastSubmitted)
      && TracksOk(tracks, inFlight, completed)
    }

    ghost predicate Valid()
      reads this
    {
      && SerialsOk() && StoreOk(scopes, current, inFlight, ROOT, parents, nextScope)
      && HistoryOk(scopes, parents, current, popped, routed, log) && FiltersOk(scopes, filters)
      && RoutingOk(parents, filters, raised, routed, uncaptured)
    }

    constructor ()
      ensures Valid() && current == ROOT && log == [] && tracks == [] && raised == [] && lastSubmitted == completed == 0
    {
      lastSubmitted, completed, scopes, current, inFlight, nextScope := 0, 0, map[], ROOT, [], 1;
      parents, filters, raised, popped, routed := map[], map[], [], map[], map[];
      uncaptured, log, tracks := [], [], [];
    }

    /** Drop a reference; the last one destroys the scope, which reports and drops its parent. */
    method Release(s: ScopeId, ghost held: seq<Item<ScopeId>>)
      requires StoreOk(scopes, current, held, s, parents, nextScope)
      requires HistoryOk(scopes, parents, current, popped, routed, log)
      modifies this`scopes, this`log
      ensures StoreOk(scopes, current, held, ROOT, parents, nextScope)
      ensures HistoryOk(scopes, parents, current, popped, routed, log)
      ensures old(log) <= log && scopes.Keys <= old(scopes).Keys
      ensures Remaining(old(scopes), scopes)
      ensures s == ROOT ==> scopes == old(scopes) && log == old(log)
      ensures s != ROOT && old(scopes[s].refs) > 1 ==> scopes == Dropped(old(scopes), s) && log == old(log)
      decreases if s > 0 then s else 0
    {
      if s != ROOT {
        var x := scopes[s];
        assert ScopeOk(scopes, s, current, held, s, parents);
        if x.refs > 1 {
          DropStep(scopes, current, held, s, parents, nextScope);
          SameHistory(scopes, Dropped(scopes, s), parents, current, popped, routed, log);
          scopes := Dropped(scopes, s);
        } else {
          RemoveStep(scopes, current, held, s, parents, nextScope);
          RemovedHistory(scopes, current, held, s, parents, nextScope, popped, routed, log);
          log := log + ReportOf(scopes, s);
          scopes := scopes - {s};
          Release(x.parent, held);
        }
      }
    }

    method PushErrorScope(filter: ErrorFilter)
      requires Valid()
      modifies this`scopes, this`current, this`nextScope, this`parents, this`filters, this`routed, this`log
      ensures Valid() && current == old(nextScope) && old(nextScope) !in old(parents)
      ensures parents == old(parents)[current := old(current)] && filters == old(filters)[current := filter]
      ensures log == old(log) && routed == old(routed)[current := []]
      ensures current !in old(scopes) && scopes == old(scopes)[current := Scope(old(current), filter, 1, false, None)]
    {
      var before := current;
      Enter(filter);
      PushedThenDropped(old(scopes), before, current, filter, filters);
      Release(before, inFlight);
    }

    /** The new scope takes its place; the reference to the old one is still to be dropped. */
    method Enter(filter: ErrorFilter)
      requires Valid()
      modifies this`scopes, this`current, this`nextScope, this`parents, this`filters, this`routed
      ensures StoreOk(scopes, current, inFlight, old(current), parents, nextScope)
      ensures HistoryOk(scopes, parents, current, popped, routed, log) && FiltersOk(scopes, filters)
      ensures RoutingOk(parents, filters, raised, routed, uncaptured)
      ensures current == old(nextScope) && old(nextScope) !in old(parents)
      ensures parents == old(parents)[current := old(current)] && filters == old(filters)[current := filter]
      ensures routed == old(routed)[current := []] && old(nextScope) !in old(scopes)
      ensures scopes == Pushed(old(scopes), old(current), current, filter)
      ensures if old(current) == ROOT then ROOT !in old(scopes) else old(current in scopes && scopes[current].refs > 0)
    {
      assert current in scopes ==> ScopeOk(scopes, current, current, inFlight, ROOT, parents);
      PushStep(scopes, current, inFlight, parents, nextScope, filter);
      PushedHistory(scopes, current, inFlight, parents, nextScope, filter, popped, routed, log);
      PushedFilters(scopes, current, nextScope, filter, filters);
      PushedRouting(parents, filters, raised, routed, uncaptured, nextScope, current, filter);
      scopes := Pushed(scopes, current, nextScope, filter);
      parents, filters := parents[nextScope := current], filters[nextScope := filter];
      routed := routed[nextScope := []];
      current := nextScope;
      nextScope := nextScope + 1;
    }

    /** The popped scope reports at once if nothing else refers to it. */
    method PopErrorScope(callback: bool) returns (ok: bool)
      requires Valid()
      modifies this`scopes, this`current, this`popped, this`log
      ensures Valid() && (ok <==> old(current) != ROOT)
      ensures ok ==>
        old(current) in parents && current == parents[old(current)] && popped == old(popped)[old(current) := callback]
      ensures ok ==>
        && old(current) in old(scopes) && old(log) <= log
        && Remaining(old(scopes[current := scopes[current].(callback := callback)]), scopes)
      ensures !ok ==> current == old(current) && popped == old(popped) && log == old(log) && scopes == old(scopes)
    {
      if current == ROOT {
        return false;
      }
      var before := current;
      Leave(callback);
      ghost var left := scopes;
      Release(before, inFlight);
      SameFilters(left, scopes, filters);
      ok := true;
    }

    /** The parent takes its place; the reference to the popped scope is still to be dropped. */
    method Leave(callback: bool)
      requires Valid() && current != ROOT
      modifies this`scopes, this`current, this`popped
      ensures StoreOk(scopes, current, inFlight, old(current), parents, nextScope)
      ensures HistoryOk(scopes, parents, current, popped, routed, log) && FiltersOk(scopes, filters)
      ensures RoutingOk(parents, filters, raised, routed, uncaptured)
      ensures old(current) in parents && current == parents[old(current)] && old(current) in old(scopes)
      ensures popped == old(popped)[old(current) := callback]
      ensures scopes == Referenced(old(scopes[current := scopes[current].(callback := callback)]), current)
    {
      PopStep(scopes, current, inFlight, parents, nextScope, callback);
      PoppedHistory(scopes, current, inFlight, parents, nextScope, callback, popped, routed, log);
      ghost var left := Referenced(scopes[current := scopes[current].(callback := callback)], parents[current]);
      SameFilters(scopes, left, filters);
      var parent := scopes[current].parent;
      popped := popped[current := callback];
      scopes := Referenced(scopes[current := scopes[current].(callback := callback)], parent);
      current := parent;
    }

    /** TrackUntilLastSubmitComplete of the current scope. */
    method Track()
      requires Valid()
      modifies this`scopes, this`inFlight, this`tracks
      ensures Valid() && tracks == old(tracks) + [Item(lastSubmitted, current)]
      ensures inFlight == old(inFlight) + [Item(lastSubmitted, current)]
      ensures scopes.Keys == old(scopes).Keys && Remaining(old(scopes), scopes)
    {
      var x := Item(lastSubmitted, current);
      TrackStep(scopes, current, inFlight, parents, nextScope, lastSubmitted);
      SameHistory(scopes, Referenced(scopes, current), parents, current, popped, routed, log);
      SameFilters(scopes, Referenced(scopes, current), filters);
      TrackedToo(tracks, inFlight, completed, x);
      scopes := Referenced(scopes, current);
      inFlight := inFlight + [x];
      tracks := tracks + [x];
    }

    /** A back end submits work of its own, under no scope. */
    method AdvanceSerial()
      requires Valid()
      modifies this`lastSubmitted
      ensures Valid() && lastSubmitted == old(lastSubmitted) + 1
    {
      lastSubmitted := lastSubmitted + 1;
    }

    /** The end of QueueBase::Submit, when the back end has taken the commands. */
    method Submit()
      requires Valid()
      modifies this`lastSubmitted, this`scopes, this`inFlight, this`tracks
      ensures Valid() && lastSubmitted == old(lastSubmitted) + 1
      ensures tracks == old(tracks) + [Item(lastSubmitted, current)]
      ensures inFlight == old(inFlight) + [Item(lastSubmitted, current)]
      ensures scopes.Keys == old(scopes).Keys && Remaining(old(scopes), scopes)
    {
      lastSubmitted := lastSubmitted + 1;
      Track();
    }

    /** The end of QueueBase::Signal, when it was valid. */
    method Signal()
      requires Valid()
      modifies this`scopes, this`inFlight, this`tracks
      ensures Valid() && tracks == old(tracks) + [Item(lastSubmitted, current)]
      ensures inFlight == old(inFlight) + [Item(lastSubmitted, current)]
      ensures scopes.Keys == old(scopes).Keys && Remaining(old(scopes), scopes)
    {
      Track();
    }

    /** DeviceBase::Tick; the GPU has come as far as `reached`. */
    method Tick(reached: Serial)
      requires Valid() && completed <= reached <= lastSubmitted
      modifies this`completed, this`scopes, this`inFlight, this`log
      ensures Valid() && completed == reached && inFlight == Beyond(old(inFlight), reached)
      ensures old(log) <= log && Remaining(old(scopes), scopes)
    {
      completed := reached;
      var due, rest := UpTo(inFlight, completed), Beyond(inFlight, completed);
      StillTracked(tracks, inFlight, completed, lastSubmitted);
      ForgetDue(due, rest);
      SameFilters(old(scopes), scopes, filters);
      inFlight := rest;
    }

    /** ClearUpTo lets go of the scopes at the head of the queue. */
    method ForgetDue(due: seq<Item<ScopeId>>, ghost rest: seq<Item<ScopeId>>)
      requires StoreOk(scopes, current, due + rest, ROOT, parents, nextScope)
      requires HistoryOk(scopes, parents, current, popped, routed, log)
      modifies this`scopes, this`log
      ensures StoreOk(scopes, current, rest, ROOT, parents, nextScope)
      ensures HistoryOk(scopes, parents, current, popped, routed, log)
      ensures old(log) <= log && Remaining(old(scopes), scopes)
    {
      assert due[0..] == due;
      for i := 0 to |due|
        invariant StoreOk(scopes, current, due[i..] + rest, ROOT, parents, nextScope)
        invariant HistoryOk(scopes, parents, current, popped, routed, log)
        invariant old(log) <= log && Remaining(old(scopes), scopes)
      {
        NextOf(due, rest, i);
        ForgetStep(scopes, current, due[i..] + rest, parents, nextScope);
        Release(due[i].value, due[i + 1..] + rest);
      }
      assert due[|due|..] + rest == rest;
    }

    /** HandleError: exactly the scopes that take the error record it, unless they have one, and the root sees
        what escapes them. */
    method HandleError(e: Error)
      requires Valid()
      modifies this`scopes, this`raised, this`routed, this`uncaptured
      ensures Valid() && raised == old(raised) + [Raised(e, current)] && scopes.Keys == old(scopes).Keys
      ensures forall s :: s in scopes ==>
        scopes[s] == if Takes(parents, filters, current, e.kind, s) && old(scopes)[s].error.None?
          then old(scopes)[s].(error := Some(e)) else old(scopes)[s]
      ensures forall s :: Takes(parents, filters, current, e.kind, s) ==> s in scopes
      ensures uncaptured == old(uncaptured) + if Escapes(parents, filters, current, e.kind) then [e] else []
    {
      TakersLive(scopes, current, inFlight, parents, nextScope, filters, e.kind);
      Route(e);
    }

    /** The same in terms of the chain. */
    method Route(e: Error)
      requires Valid()
      modifies this`scopes, this`raised, this`routed, this`uncaptured
      ensures Valid() && raised == old(raised) + [Raised(e, current)]
      ensures var chain := Chain(parents, current);
        var captors := Captors(chain, filters, e.kind);
        && scopes == Marked(old(scopes), captors, e) && routed == RouteTo(old(routed), captors, e)
        && uncaptured == old(uncaptured) + if Uncaptured(chain, filters, e.kind) then [e] else []
    {
      ghost var captors := Captors(Chain(parents, current), filters, e.kind);
      ErrorHistory(scopes, current, inFlight, parents, nextScope, popped, routed, log, filters, e);
      RaisedRouting(parents, filters, raised, routed, uncaptured, Raised(e, current));
      var reachedRoot := RecordError(e);
      raised, routed := raised + [Raised(e, current)], RouteTo(routed, captors, e);
      if reachedRoot {
        uncaptured := uncaptured + [e];
      }
    }

    method RecordError(e: Error) returns (reachedRoot: bool)
      requires StoreOk(scopes, current, inFlight, ROOT, parents, nextScope) && FiltersOk(scopes, filters)
      modifies this`scopes
      ensures scopes == Marked(old(scopes), Captors(Chain(parents, current), filters, e.kind), e)
      ensures reachedRoot <==> Uncaptured(Chain(parents, current), filters, e.kind)
    {
      ghost var chain, before, k := Chain(parents, current), scopes, 0;
      var at := current;
      while at != ROOT
        invariant k <= |chain| && Known(at, before) && Chain(parents, at) == chain[k..]
        invariant scopes == SoFar(before, chain, k, e) && (Fatal(e.kind) || NoMatch(filters, chain, k, e.kind))
        decreases |chain| - k
      {
        assert ScopeOk(before, at, current, inFlight, ROOT, parents) && FilterOk(before, filters, at);
        NextInChain(parents, chain, k, at);
        SoFarSame(before, chain, k, e, at);
        var x, consumed := scopes[at], !Fatal(e.kind) && Matches(scopes[at].filter, e.kind);
        if consumed || Fatal(e.kind) {
          scopes := Recorded(scopes, at, e);
        }
        if consumed {
          CapturedHere(chain, before, filters, e, k);
          return false;
        }
        at := x.parent;
        k := k + 1;
      }
      assert k == |chain| by { NextInChain(parents, chain, k, ROOT); }
      NothingCaptured(chain, before, filters, e);
      reachedRoot := true;
    }
  }

  lemma {:induction false} TakersLive(scopes: Store, current: ScopeId, held: seq<Item<ScopeId>>, parents: Lineage,
                                      bound: ScopeId, filters: Filters, kind: ErrorType)
    requires StoreOk(scopes, current, held, ROOT, parents, bound)
    ensures forall s :: s in Captors(Chain(parents, current), filters, kind) <==>
      Takes(parents, filters, current, kind, s)
    ensures forall s :: Takes(parents, filters, current, kind, s) ==> s in scopes
    ensures Uncaptured(Chain(parents, current), filters, kind) <==> Escapes(parents, filters, current, kind)
  {
    forall s
      ensures s in Captors(Chain(parents, current), filters, kind) <==> Takes(parents, filters, current, kind, s)
      ensures Takes(parents, filters, current, kind, s) ==> s in scopes
    {
      CaptorsTake(parents, filters, current, kind, s);
      if Takes(parents, filters, current, kind, s) {
        AncestorsLive(scopes, current, held, ROOT, parents, bound, current, s);
      }
    }
    CaptorsTake(parents, filters, current, kind, ROOT);
  }

  /** t is what remains of s: nothing is new, and only reference counts have changed. */
  predicate Remaining(s: Store, t: Store) {
    forall c :: c in t ==> c in s && t[c] == s[c].(refs := t[c].refs)
  }

  /** Record the error in a scope, unless it has one. */
  function Recorded(scopes: Store, s: ScopeId, e: Error): (r: Store)
    ensures r.Keys == scopes.Keys
  {
    if s in scopes && scopes[s].error.None? then scopes[s := scopes[s].(error := Some(e))] else scopes
  }

  /** What k turns of the loop record if no filter matches. */
  ghost function SoFar(scopes: Store, chain: seq<ScopeId>, k: nat, e: Error): (r: Store)
    requires k <= |chain|
  {
    if k == 0 || !Fatal(e.kind) then scopes else Recorded(SoFar(scopes, chain, k - 1, e), chain[k - 1], e)
  }

  lemma {:induction false} NextInChain(parents: Lineage, chain: seq<ScopeId>, k: nat, s: ScopeId)
    requires Rooted(parents) && k <= |chain| && Chain(parents, s) == chain[k..]
    ensures k < |chain| <==> s in parents
    ensures s in parents ==> chain[k] == s && Chain(parents, parents[s]) == chain[k + 1..]
  {
    if s in parents {
      assert Chain(parents, s)[0] == s && Chain(parents, s)[1..] == Chain(parents, parents[s]);
    }
  }

  lemma {:induction false} SoFarSame(scopes: Store, chain: seq<ScopeId>, k: nat, e: Error, s: ScopeId)
    requires k <= |chain| && s in scopes
    ensures var now := SoFar(scopes, chain, k, e);
      s in now && now[s].parent == scopes[s].parent && now[s].filter == scopes[s].filter
  {
    if k > 0 { SoFarSame(scopes, chain, k - 1, e, s); }
  }

  lemma {:induction false} SoFarMarked(scopes: Store, chain: seq<ScopeId>, k: nat, e: Error)
    requires k <= |chain| && Fatal(e.kind)
    ensures SoFar(scopes, chain, k, e) == Marked(scopes, (set j | 0 <= j < k :: chain[j]), e)
  {
    if k > 0 {
      SoFarMarked(scopes, chain, k - 1, e);
      assert (set j | 0 <= j < k :: chain[j]) == (set j | 0 <= j < k - 1 :: chain[j]) + {chain[k - 1]};
    }
  }

  lemma {:induction false} TrackedToo(tracks: seq<Item<ScopeId>>, held: seq<Item<ScopeId>>, completed: Serial,
                                      x: Item<ScopeId>)
    requires TracksOk(tracks, held, completed) && Sorted(held) && Between(held, 0, x.serial)
    ensures TracksOk(tracks + [x], held + [x], completed) && Sorted(held + [x]) && Between(held + [x], 0, x.serial)
  {
    SortedAppend(held, x);
  }

  lemma {:induction false} CapturedHere(chain: seq<ScopeId>, scopes: Store, filters: Filters, e: Error, k: nat)
    requires k < |chain| && !Fatal(e.kind)
    requires Matches(FilterOf(filters, chain[k]), e.kind) && NoMatch(filters, chain, k, e.kind)
    ensures Marked(scopes, Captors(chain, filters, e.kind), e) == Recorded(SoFar(scopes, chain, k, e), chain[k], e)
    ensures !Uncaptured(chain, filters, e.kind)
  {
    assert CapturesAt(chain, filters, e.kind, k);
    assert forall j :: 0 <= j < |chain| && CapturesAt(chain, filters, e.kind, j) ==> j == k;
    assert Captors(chain, filters, e.kind) == {chain[k]};
  }

  lemma {:induction false} NothingCaptured(chain: seq<ScopeId>, scopes: Store, filters: Filters, e: Error)
    requires Fatal(e.kind) || NoMatch(filters, chain, |chain|, e.kind)
    ensures Uncaptured(chain, filters, e.kind)
    ensures Marked(scopes, Captors(chain, filters, e.kind), e) == SoFar(scopes, chain, |chain|, e)
  {
    if Fatal(e.kind) {
      SoFarMarked(scopes, chain, |chain|, e);
      assert Captors(chain, filters, e.kind) == set j | 0 <= j < |chain| :: chain[j];
    } else {
      assert Captors(chain, filters, e.kind) == {};
    }
  }

  /** s takes the k-th error. */
  ghost predicate TakesAt(raised: seq<Raised>, parents: Lineage, filters: Filters, s: ScopeId, k: nat)
    requires Rooted(parents) && k < |raised|
  {
    Takes(parents, filters, raised[k].scope, raised[k].error.kind, s)
  }

  /** The first of the errors that s takes, if there is one. */
  ghost predicate FirstFor(raised: seq<Raised>, parents: Lineage, filters: Filters, s: ScopeId, error: Option<Error>)
    requires Rooted(parents)
  {
    match error
    case None => forall k :: 0 <= k < |raised| ==> !TakesAt(raised, parents, filters, s, k)
    case Some(e) =>
      exists k ::
        && 0 <= k < |raised| && TakesAt(raised, parents, filters, s, k) && raised[k].error == e
        && forall j :: 0 <= j < k ==> !TakesAt(raised, parents, filters, s, j)
  }

  lemma {:induction false} EarliestIsFirst(raised: seq<Raised>, parents: Lineage, filters: Filters, s: ScopeId)
    requires Rooted(parents)
    ensures FirstFor(raised, parents, filters, s, Earliest(RoutedTo(raised, parents, filters, s)))
  {
    if raised != [] {
      var n := |raised| - 1;
      var before := raised[..n];
      EarliestIsFirst(before, parents, filters, s);
      CaptorsTake(parents, filters, raised[n].scope, raised[n].error.kind, s);
      assert forall k :: 0 <= k < n ==>
        (TakesAt(before, parents, filters, s, k) <==> TakesAt(raised, parents, filters, s, k));
      if RoutedTo(before, parents, filters, s) == [] && TakesAt(raised, parents, filters, s, n) {
        assert FirstFor(before, parents, filters, s, None);
      }
    }
  }

  /** In any valid state, of every scope: its callback runs at most once, and has run exactly when it
      was popped with a callback and neither the current scope nor anything in flight is under it; then
      everything tracked under it has passed, it was told the first of all errors raised that it takes, and
      none of its ancestors had been told before. */
  lemma {:induction false} ScopesResolveInOrder(t: ScopeStack, s: ScopeId)
    requires t.Valid() && s in t.parents
    ensures Reported(t.log, s) <==> s in t.popped && t.popped[s] && !SomethingUnder(t.parents, t.current, t.inFlight, s)
    ensures forall i, j :: 0 <= i < j < |t.log| && t.log[j].scope == s ==>
      t.log[i].scope != s && !Under(t.parents, s, t.log[i].scope)
    ensures forall i :: 0 <= i < |t.log| && t.log[i].scope == s ==>
      FirstFor(t.raised, t.parents, t.filters, s, t.log[i].error)
    ensures s in t.scopes ==> FirstFor(t.raised, t.parents, t.filters, s, t.scopes[s].error)
    ensures Reported(t.log, s) ==> forall i :: 0 <= i < |t.tracks| && Under(t.parents, t.tracks[i].value, s) ==>
      t.tracks[i].serial <= t.completed
  {
    assert RouteOk(t.routed, t.raised, t.parents, t.filters, s);
    EarliestIsFirst(t.raised, t.parents, t.filters, s);
    assert LifeOk(t.scopes, s, t.parents, t.current, t.popped, t.routed, t.log);
    LivesExactlyWhile(t.scopes, t.current, t.inFlight, t.parents, t.nextScope, s);
    assert Under(t.parents, s, s);
    forall i | 0 <= i < |t.tracks| && Under(t.parents, t.tracks[i].value, s) && t.tracks[i].serial > t.completed
      ensures SomethingUnder(t.parents, t.current, t.inFlight, s)
    {
      var k :| 0 <= k < |t.inFlight| && t.inFlight[k] == t.tracks[i];
    }
  }

  /** A scope keeps the filter it was pushed with, whatever else happens. */
  method FilterStays(t: ScopeStack, filter: ErrorFilter, other: ErrorFilter)
    requires t.Valid()
    modifies t
    ensures t.Valid() && old(t.nextScope) in t.filters && t.filters[old(t.nextScope)] == filter
    ensures old(t.nextScope) in t.scopes ==> t.scopes[old(t.nextScope)].filter == filter
  {
    t.PushErrorScope(filter);
    t.PushErrorScope(other);
    t.Submit();
    t.Tick(t.lastSubmitted);
    assert old(t.nextScope) in t.scopes ==> FilterOk(t.scopes, t.filters, old(t.nextScope));
  }
}
