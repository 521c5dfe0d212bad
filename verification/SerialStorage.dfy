/** Values keyed by serial: src/common/SerialStorage.h, SerialQueue.h and SerialMap.h. Both containers
    are a sequence of entries in serial order (a vector of pairs, or an ordered map). */
module SerialStorage {
  type Serial = nat
  datatype Item<T> = Item(serial: Serial, value: T)
  datatype Entry<T> = Entry(serial: Serial, values: seq<T>)

  // The reference: a log of enqueued items, read by serial and then by enqueue order.

  predicate Sorted<T>(items: seq<Item<T>>) {
    forall i, j :: 0 <= i < j < |items| ==> items[i].serial <= items[j].serial
  }

  predicate Between<T>(items: seq<Item<T>>, low: Serial, high: Serial) {
    forall i :: 0 <= i < |items| ==> low <= items[i].serial <= high
  }

  predicate Above<T>(items: seq<Item<T>>, s: Serial) {
    forall i :: 0 <= i < |items| ==> items[i].serial > s
  }

  /** The values enqueued under one serial, in enqueue order. */
  function Of<T>(items: seq<Item<T>>, s: Serial): (r: seq<T>) {
    if items == [] then []
    else
      var n := |items| - 1;
      Of(items[..n], s) + if items[n].serial == s then [items[n].value] else []
  }

  function UpTo<T>(items: seq<Item<T>>, s: Serial): (r: seq<Item<T>>)
  {
    if items == [] then []
    else
      var n := |items| - 1;
      UpTo(items[..n], s) + if items[n].serial <= s then [items[n]] else []
  }

  function Beyond<T>(items: seq<Item<T>>, s: Serial): (r: seq<Item<T>>)
  {
    if items == [] then []
    else
      var n := |items| - 1;
      Beyond(items[..n], s) + if items[n].serial > s then [items[n]] else []
  }

  function Values<T>(items: seq<Item<T>>): (r: seq<T>)
    ensures |r| == |items| && forall i :: 0 <= i < |r| ==> r[i] == items[i].value
  {
    seq(|items|, i requires 0 <= i < |items| => items[i].value)
  }

  function Items<T>(values: seq<T>, s: Serial): (r: seq<Item<T>>)
    ensures |r| == |values| && forall i :: 0 <= i < |r| ==> r[i] == Item(s, values[i])
  {
    seq(|values|, i requires 0 <= i < |values| => Item(s, values[i]))
  }

  /** x goes behind everything that has its serial or a smaller one. */
  function Insert<T>(items: seq<Item<T>>, x: Item<T>): (r: seq<Item<T>>) {
    if items == [] || items[|items| - 1].serial <= x.serial then items + [x]
    else Insert(items[..|items| - 1], x) + [items[|items| - 1]]
  }

  /** The log in serial order, equal serials in enqueue order. */
  function InOrder<T>(log: seq<Item<T>>): (r: seq<Item<T>>) {
    if log == [] then [] else Insert(InOrder(log[..|log| - 1]), log[|log| - 1])
  }

  lemma {:induction false} InOrderAppend<T>(log: seq<Item<T>>, x: Item<T>)
    ensures InOrder(log + [x]) == Insert(InOrder(log), x)
  {
    assert (log + [x])[..|log|] == log;
  }

  lemma {:induction false} OfAppend<T>(items: seq<Item<T>>, x: Item<T>, s: Serial)
    ensures Of(items + [x], s) == Of(items, s) + if x.serial == s then [x.value] else []
  {
    assert (items + [x])[..|items|] == items;
  }

  lemma {:induction false} InsertOf<T>(items: seq<Item<T>>, x: Item<T>, s: Serial)
    ensures Of(Insert(items, x), s) == Of(items, s) + if x.serial == s then [x.value] else []
  {
    if items == [] || items[|items| - 1].serial <= x.serial {
      OfAppend(items, x, s);
    } else {
      var n := |items| - 1;
      InsertOf(items[..n], x, s);
      OfAppend(Insert(items[..n], x), items[n], s);
    }
  }

  lemma {:induction false} SortedAppend<T>(items: seq<Item<T>>, x: Item<T>)
    requires Sorted(items) && Between(items, 0, x.serial)
    ensures Sorted(items + [x])
  {
  }

  lemma {:induction false} InsertSorted<T>(items: seq<Item<T>>, x: Item<T>)
    requires Sorted(items)
    ensures Sorted(Insert(items, x)) && |Insert(items, x)| == |items| + 1
    ensures forall high: Serial :: Between(items, 0, high) && x.serial <= high ==> Between(Insert(items, x), 0, high)
  {
    if items == [] || items[|items| - 1].serial <= x.serial {
      SortedAppend(items, x);
    } else {
      var n := |items| - 1;
      InsertSorted(items[..n], x);
      assert Between(items[..n], 0, items[n].serial);
      SortedAppend(Insert(items[..n], x), items[n]);
      forall high: Serial | Between(items, 0, high) && x.serial <= high ensures Between(Insert(items, x), 0, high) {
        assert Between(items[..n], 0, high);
      }
    }
  }

  /** InOrder is a sorted rearrangement that keeps the order under each serial. */
  lemma {:induction false} InOrderIsStable<T>(log: seq<Item<T>>, s: Serial)
    ensures Sorted(InOrder(log)) && |InOrder(log)| == |log| && Of(InOrder(log), s) == Of(log, s)
  {
    if log != [] {
      var n := |log| - 1;
      InOrderIsStable(log[..n], s);
      InsertOf(InOrder(log[..n]), log[n], s);
      InsertSorted(InOrder(log[..n]), log[n]);
    }
  }

  lemma {:induction false} OfNone<T>(items: seq<Item<T>>, s: Serial)
    requires forall i :: 0 <= i < |items| ==> items[i].serial != s
    ensures Of(items, s) == []
  {
    if items != [] { OfNone(items[..|items| - 1], s); }
  }

  lemma {:induction false} LastNotBelow<T>(a: seq<Item<T>>, b: seq<Item<T>>)
    requires Sorted(a) && b != [] && forall s :: Of(a, s) == Of(b, s)
    ensures a != [] && b[|b| - 1].serial <= a[|a| - 1].serial
  {
    var t := b[|b| - 1].serial;
    assert Of(b, t) != [] && Of(a, t) == Of(b, t);
    if a == [] || a[|a| - 1].serial < t {
      OfNone(a, t);
    }
  }

  /** Sequences that end with the same serial and agree under a serial agree there without their ends. */
  lemma {:induction false} SameWithoutLast<T>(a: seq<Item<T>>, x: Item<T>, b: seq<Item<T>>, y: Item<T>, s: Serial)
    requires x.serial == y.serial && Of(a + [x], s) == Of(b + [y], s)
    ensures Of(a, s) == Of(b, s) && (s == x.serial ==> x.value == y.value)
  {
    OfAppend(a, x, s);
    OfAppend(b, y, s);
    if s == x.serial {
      var u, v := Of(a + [x], s), Of(b + [y], s);
      assert u[|u| - 1] == x.value && v[|v| - 1] == y.value;
      assert Of(a, s) == u[..|u| - 1] && Of(b, s) == v[..|v| - 1];
    } else {
      assert Of(a + [x], s) == Of(a, s) && Of(b + [y], s) == Of(b, s);
    }
  }

  /** ... and there is only one such rearrangement. */
  lemma {:induction false} OnlyOneOrder<T>(a: seq<Item<T>>, b: seq<Item<T>>)
    requires Sorted(a) && Sorted(b) && forall s :: Of(a, s) == Of(b, s)
    ensures a == b
    decreases |a|
  {
    if b != [] { LastNotBelow(a, b); }
    if a != [] {
      LastNotBelow(b, a);
      var x, y, a', b' := a[|a| - 1], b[|b| - 1], a[..|a| - 1], b[..|b| - 1];
      assert a == a' + [x] && b == b' + [y];
      forall s ensures Of(a', s) == Of(b', s) {
        assert Of(a, s) == Of(b, s);
        SameWithoutLast(a', x, b', y, s);
      }
      assert Of(a, x.serial) == Of(b, x.serial);
      SameWithoutLast(a', x, b', y, x.serial);
      OnlyOneOrder(a', b');
    }
  }

  lemma {:induction false} SortedStays<T>(log: seq<Item<T>>)
    requires Sorted(log)
    ensures InOrder(log) == log
  {
    forall s ensures Of(InOrder(log), s) == Of(log, s) { InOrderIsStable(log, s); }
    InOrderIsStable(log, 0);
    OnlyOneOrder(InOrder(log), log);
  }

  lemma {:induction false} SelectAppend<T>(items: seq<Item<T>>, x: Item<T>, s: Serial)
    ensures UpTo(items + [x], s) == UpTo(items, s) + if x.serial <= s then [x] else []
    ensures Beyond(items + [x], s) == Beyond(items, s) + if x.serial > s then [x] else []
  {
    assert (items + [x])[..|items|] == items;
  }

  lemma {:induction false} AllUpTo<T>(a: seq<Item<T>>, s: Serial)
    requires Between(a, 0, s)
    ensures UpTo(a, s) == a && Beyond(a, s) == []
  {
    if a != [] {
      var n := |a| - 1;
      AllUpTo(a[..n], s);
      assert a == a[..n] + [a[n]];
    }
  }

  lemma {:induction false} SelectParts<T>(a: seq<Item<T>>, b: seq<Item<T>>, s: Serial)
    requires Between(a, 0, s) && Above(b, s)
    ensures UpTo(a + b, s) == a && Beyond(a + b, s) == b
    decreases |b|
  {
    if b == [] {
      AllUpTo(a, s);
      assert a + b == a;
    } else {
      var m := |b| - 1;
      SelectParts(a, b[..m], s);
      assert a + b == (a + b[..m]) + [b[m]] && b == b[..m] + [b[m]];
      SelectAppend(a + b[..m], b[m], s);
    }
  }

  lemma {:induction false} PartitionOf<T>(items: seq<Item<T>>, s: Serial, t: Serial)
    ensures Of(UpTo(items, s), t) == if t <= s then Of(items, t) else []
    ensures Of(Beyond(items, s), t) == if t > s then Of(items, t) else []
  {
    if items != [] {
      var a, x := items[..|items| - 1], items[|items| - 1];
      assert items == a + [x];
      PartitionOf(a, s, t);
      OfAppend(a, x, t);
      SelectAppend(a, x, s);
      if x.serial <= s {
        OfAppend(UpTo(a, s), x, t);
        assert Beyond(items, s) == Beyond(a, s);
      } else {
        OfAppend(Beyond(a, s), x, t);
        assert UpTo(items, s) == UpTo(a, s);
      }
    }
  }

  lemma {:induction false} SelectedBounds<T>(items: seq<Item<T>>, s: Serial, high: Serial)
    requires Between(items, 0, high)
    ensures Between(UpTo(items, s), 0, s) && Between(Beyond(items, s), s + 1, high)
  {
    if items != [] { SelectedBounds(items[..|items| - 1], s, high); }
  }

  lemma {:induction false} Partition<T>(items: seq<Item<T>>, s: Serial)
    requires Sorted(items)
    ensures Sorted(UpTo(items, s)) && Sorted(Beyond(items, s)) && items == UpTo(items, s) + Beyond(items, s)
  {
    if items != [] {
      var n := |items| - 1;
      if items[n].serial <= s {
        AllUpTo(items, s);
      } else {
        var a, x := items[..n], items[n];
        assert items == a + [x];
        Partition(a, s);
        SelectAppend(a, x, s);
        SelectedBounds(a, s, x.serial);
        SortedAppend(Beyond(a, s), x);
        assert UpTo(items, s) == UpTo(a, s) && Beyond(items, s) == Beyond(a, s) + [x];
        Associative(UpTo(a, s), Beyond(a, s), x);
      }
    }
  }

  /** Taking or dropping a range of serials and putting in order can be done either way round. */
  lemma {:induction false} OrderThenSelect<T>(log: seq<Item<T>>, s: Serial)
    ensures UpTo(InOrder(log), s) == InOrder(UpTo(log, s))
    ensures Beyond(InOrder(log), s) == InOrder(Beyond(log, s))
  {
    forall t
      ensures Of(UpTo(InOrder(log), s), t) == Of(InOrder(UpTo(log, s)), t)
      ensures Of(Beyond(InOrder(log), s), t) == Of(InOrder(Beyond(log, s)), t)
    {
      InOrderIsStable(log, t);
      InOrderIsStable(UpTo(log, s), t);
      InOrderIsStable(Beyond(log, s), t);
      PartitionOf(log, s, t);
      PartitionOf(InOrder(log), s, t);
    }
    InOrderIsStable(log, 0);
    InOrderIsStable(UpTo(log, s), 0);
    InOrderIsStable(Beyond(log, s), 0);
    Partition(InOrder(log), s);
    OnlyOneOrder(UpTo(InOrder(log), s), InOrder(UpTo(log, s)));
    OnlyOneOrder(Beyond(InOrder(log), s), InOrder(Beyond(log, s)));
  }

  // The storage.

  function Contents<T>(st: seq<Entry<T>>): (r: seq<Item<T>>) {
    if st == [] then [] else Contents(st[..|st| - 1]) + Items(st[|st| - 1].values, st[|st| - 1].serial)
  }

  predicate Ok<T>(st: seq<Entry<T>>) {
    && (forall i :: 0 <= i < |st| ==> st[i].values != [])
    && (forall i, j :: 0 <= i < j < |st| ==> st[i].serial <= st[j].serial)
  }

  lemma {:induction false} ContentsAppend<T>(st: seq<Entry<T>>, e: Entry<T>)
    ensures Contents(st + [e]) == Contents(st) + Items(e.values, e.serial)
  {
    assert (st + [e])[..|st|] == st;
  }

  lemma {:induction false} ContentsSplit<T>(a: seq<Entry<T>>, b: seq<Entry<T>>)
    ensures Contents(a + b) == Contents(a) + Contents(b)
    decreases |b|
  {
    if b == [] {
      assert a + b == a;
    } else {
      var n := |b| - 1;
      ContentsSplit(a, b[..n]);
      assert a + b == (a + b[..n]) + [b[n]];
      ContentsAppend(a + b[..n], b[n]);
      assert Contents(b) == Contents(b[..n]) + Items(b[n].values, b[n].serial);
    }
  }

  lemma {:induction false} ContentsBounds<T>(st: seq<Entry<T>>, low: Serial, high: Serial)
    requires forall i :: 0 <= i < |st| ==> low <= st[i].serial <= high
    ensures Between(Contents(st), low, high)
  {
    if st != [] { ContentsBounds(st[..|st| - 1], low, high); }
  }

  lemma {:induction false} ContentsAbove<T>(st: seq<Entry<T>>, s: Serial)
    requires forall i :: 0 <= i < |st| ==> st[i].serial > s
    ensures Above(Contents(st), s)
  {
    if st != [] { ContentsAbove(st[..|st| - 1], s); }
  }

  lemma {:induction false} ContentsSorted<T>(st: seq<Entry<T>>)
    requires Ok(st)
    ensures Sorted(Contents(st))
    ensures st != [] ==> Contents(st) != [] && Contents(st)[|Contents(st)| - 1].serial == st[|st| - 1].serial
  {
    if st != [] {
      var n := |st| - 1;
      ContentsSorted(st[..n]);
      ContentsBounds(st[..n], 0, st[n].serial);
    }
  }

  /** Cutting where the serials pass s separates the contents at s. */
  lemma {:induction false} CutAt<T>(st: seq<Entry<T>>, k: nat, s: Serial)
    requires Ok(st) && k <= |st|
    requires (forall i :: 0 <= i < k ==> st[i].serial <= s) && (k < |st| ==> st[k].serial > s)
    ensures Contents(st[..k]) == UpTo(Contents(st), s) && Contents(st[k..]) == Beyond(Contents(st), s)
  {
    assert st == st[..k] + st[k..];
    ContentsSplit(st[..k], st[k..]);
    ContentsBounds(st[..k], 0, s);
    ContentsAbove(st[k..], s);
    SelectParts(Contents(st[..k]), Contents(st[k..]), s);
  }

  method FindUpTo<T>(st: seq<Entry<T>>, s: Serial) returns (k: nat)
    requires Ok(st)
    ensures k <= |st| && Contents(st[..k]) == UpTo(Contents(st), s) && Contents(st[k..]) == Beyond(Contents(st), s)
  {
    k := 0;
    while k < |st| && st[k].serial <= s
      invariant k <= |st| && forall i :: 0 <= i < k ==> st[i].serial <= s
    {
      k := k + 1;
    }
    CutAt(st, k, s);
  }

  // Iteration.

  /** Either the start of an entry (a null mSerialIterator) or a later place in its vector. */
  datatype Iterator = AtEntry(entry: nat) | WithinEntry(entry: nat, index: nat)

  predicate IteratorOk<T>(st: seq<Entry<T>>, it: Iterator) {
    match it
    case AtEntry(k) => k <= |st|
    case WithinEntry(k, i) => k < |st| && 0 < i < |st[k].values|
  }

  /** What lies before the iterator. */
  ghost function Passed<T>(st: seq<Entry<T>>, it: Iterator): seq<Item<T>>
    requires IteratorOk(st, it)
  {
    Contents(st[..it.entry]) + if it.AtEntry? then [] else Items(st[it.entry].values, st[it.entry].serial)[..it.index]
  }

  method Advance<T>(st: seq<Entry<T>>, it: Iterator) returns (r: Iterator)
    requires Ok(st) && IteratorOk(st, it) && it.entry < |st|
    ensures IteratorOk(st, r) && (r.entry == it.entry || r == AtEntry(it.entry + 1))
    ensures Passed(st, r) ==
      Passed(st, it) + [Item(st[it.entry].serial, st[it.entry].values[if it.AtEntry? then 0 else it.index])]
  {
    var i := if it.AtEntry? then 1 else it.index + 1;
    var e := st[it.entry];
    if i >= |e.values| {
      assert st[..it.entry + 1] == st[..it.entry] + [e];
      ContentsAppend(st[..it.entry], e);
      r := AtEntry(it.entry + 1);
    } else {
      r := WithinEntry(it.entry, i);
    }
    var items := Items(e.values, e.serial);
    assert items[..i] == items[..i - 1] + [items[i - 1]];
    assert i == |e.values| ==> items[..i] == items;
  }

  function Dereference<T>(st: seq<Entry<T>>, it: Iterator): (v: T)
    requires Ok(st) && IteratorOk(st, it) && it.entry < |st|
  {
    if it.AtEntry? then st[it.entry].values[0] else st[it.entry].values[it.index]
  }

  lemma {:induction false} ContentsGrow<T>(st: seq<Entry<T>>, k: nat, m: nat)
    requires k <= m <= |st|
    ensures |Contents(st[..k])| <= |Contents(st[..m])|
  {
    assert st[..m] == st[..k] + st[k..m];
    ContentsSplit(st[..k], st[k..m]);
  }

  lemma {:induction false} PassedBound<T>(st: seq<Entry<T>>, it: Iterator, end: nat)
    requires IteratorOk(st, it) && end <= |st| && (it == AtEntry(end) || it.entry < end)
    ensures |Passed(st, it)| <= |Contents(st[..end])|
  {
    if it.WithinEntry? {
      assert st[..it.entry + 1] == st[..it.entry] + [st[it.entry]];
      ContentsAppend(st[..it.entry], st[it.entry]);
      ContentsGrow(st, it.entry + 1, end);
    } else {
      ContentsGrow(st, it.entry, end);
    }
  }

  /** A range-based for over the entries before `end`. */
  method Iterate<T>(st: seq<Entry<T>>, end: nat) returns (visited: seq<T>)
    requires Ok(st) && end <= |st|
    ensures visited == Values(Contents(st[..end]))
  {
    var it := AtEntry(0);
    visited := [];
    while it != AtEntry(end)
      invariant IteratorOk(st, it) && (it == AtEntry(end) || it.entry < end)
      invariant visited == Values(Passed(st, it))
      decreases |Contents(st[..end])| - |visited|
    {
      visited := visited + [Dereference(st, it)];
      it := Advance(st, it);
      PassedBound(st, it, end);
    }
  }

  // SerialQueue.

  lemma {:induction false} OkAppended<T>(st: seq<Entry<T>>, e: Entry<T>)
    requires Ok(st) && e.values != [] && (st == [] || st[|st| - 1].serial <= e.serial)
    ensures Ok(st + [e])
  {
    var st' := st + [e];
    forall i | 0 <= i < |st'| ensures st'[i].values != [] {}
    forall i, j | 0 <= i < j < |st'| ensures st'[i].serial <= st'[j].serial {
      if j == |st| && i < |st| - 1 { assert st[i].serial <= st[|st| - 1].serial; }
    }
  }

  /** mStorage.back().second.push_back(value). */
  function PushBack<T>(st: seq<Entry<T>>, value: T): (r: seq<Entry<T>>)
    requires st != []
    ensures |r| == |st|
  {
    var n := |st| - 1;
    st[n := Entry(st[n].serial, st[n].values + [value])]
  }

  lemma {:induction false} PushBackOk<T>(st: seq<Entry<T>>, value: T)
    requires Ok(st) && st != []
    ensures Ok(PushBack(st, value))
  {
    var r := PushBack(st, value);
    forall i | 0 <= i < |r| ensures r[i].values != [] && r[i].serial == st[i].serial {}
  }

  lemma {:induction false} PushBackContents<T>(st: seq<Entry<T>>, value: T)
    requires st != []
    ensures Contents(PushBack(st, value)) == Contents(st) + [Item(st[|st| - 1].serial, value)]
  {
    var n := |st| - 1;
    assert st == st[..n] + [st[n]];
    assert PushBack(st, value) == st[..n] + [Entry(st[n].serial, st[n].values + [value])];
    ContentsExtended(st[..n], st[n], value);
  }

  lemma {:induction false} Associative<T>(a: seq<T>, b: seq<T>, x: T)
    ensures a + (b + [x]) == (a + b) + [x]
  {
  }

  lemma {:induction false} ContentsExtended<T>(st: seq<Entry<T>>, e: Entry<T>, value: T)
    ensures Contents(st + [Entry(e.serial, e.values + [value])]) == Contents(st + [e]) + [Item(e.serial, value)]
  {
    ContentsAppend(st, e);
    ContentsAppend(st, Entry(e.serial, e.values + [value]));
    assert Items(e.values + [value], e.serial) == Items(e.values, e.serial) + [Item(e.serial, value)];
    Associative(Contents(st), Items(e.values, e.serial), Item(e.serial, value));
  }

  lemma {:induction false} ContentsOfNewEntry<T>(st: seq<Entry<T>>, s: Serial, value: T)
    ensures Contents(st + [Entry(s, [value])]) == Contents(st) + [Item(s, value)]
  {
    ContentsAppend(st, Entry(s, [value]));
    assert Items([value], s) == [Item(s, value)];
  }

  class SerialQueue<T> {
    var storage: seq<Entry<T>>
    /** Everything enqueued and not cleared, in enqueue order. */
    ghost var log: seq<Item<T>>

    ghost predicate Valid()
      reads this
    {
      Ok(storage) && Sorted(log) && Contents(storage) == log
    }

    constructor ()
      ensures Valid() && log == []
    {
      storage, log := [], [];
    }

    predicate Empty()
      reads this
      requires Valid()
      ensures Empty() <==> log == []
    {
      ContentsSorted(storage);
      storage == []
    }

    function LastSerial(): (s: Serial)
      reads this
      requires Valid() && !Empty()
      ensures s == log[|log| - 1].serial
    {
      ContentsSorted(storage);
      storage[|storage| - 1].serial
    }

    function FirstSerial(): (s: Serial)
      reads this
      requires Valid() && !Empty()
      ensures s == log[0].serial
    {
      assert storage == storage[..1] + storage[1..];
      ContentsSplit(storage[..1], storage[1..]);
      assert storage[..1][..0] == [];
      storage[0].serial
    }

    method Enqueue(value: T, serial: Serial)
      requires Valid() && (Empty() || LastSerial() <= serial)
      modifies this
      ensures Valid() && log == old(log) + [Item(serial, value)]
    {
      if storage == [] || storage[|storage| - 1].serial < serial {
        EnqueueInNewEntry(value, serial);
      } else {
        EnqueueInLastEntry(value);
      }
    }

    method EnqueueInNewEntry(value: T, serial: Serial)
      requires Valid() && (storage == [] || storage[|storage| - 1].serial < serial)
      modifies this
      ensures Valid() && log == old(log) + [Item(serial, value)]
    {
      OkAppended(storage, Entry(serial, [value]));
      ContentsOfNewEntry(storage, serial, value);
      storage := storage + [Entry(serial, [value])];
      log := log + [Item(serial, value)];
      ContentsSorted(storage);
    }

    method EnqueueInLastEntry(value: T)
      requires Valid() && storage != []
      modifies this
      ensures Valid() && log == old(log) + [Item(old(storage)[|old(storage)| - 1].serial, value)]
    {
      PushBackOk(storage, value);
      PushBackContents(storage, value);
      log := log + [Item(storage[|storage| - 1].serial, value)];
      storage := PushBack(storage, value);
      ContentsSorted(storage);
    }

    method EnqueueAll(values: seq<T>, serial: Serial)
      requires Valid() && values != [] && (Empty() || LastSerial() <= serial)
      modifies this
      ensures Valid() && log == old(log) + Items(values, serial)
    {
      OkAppended(storage, Entry(serial, values));
      ContentsAppend(storage, Entry(serial, values));
      storage := storage + [Entry(serial, values)];
      log := log + Items(values, serial);
      ContentsSorted(storage);
    }

    /** The values enqueued with a serial of at most s, by serial and then by enqueue order. */
    method IterateUpTo(s: Serial) returns (visited: seq<T>)
      requires Valid()
      ensures visited == Values(InOrder(UpTo(log, s))) == Values(UpTo(log, s))
    {
      var end := FindUpTo(storage, s);
      visited := Iterate(storage, end);
      Partition(log, s);
      SortedStays(UpTo(log, s));
    }

    method ClearUpTo(s: Serial)
      requires Valid()
      modifies this
      ensures Valid() && log == Beyond(old(log), s)
    {
      var k := FindUpTo(storage, s);
      Partition(log, s);
      storage, log := storage[k..], Beyond(log, s);
    }
  }

  // SerialMap.

  predicate Strict<T>(st: seq<Entry<T>>) {
    forall i, j :: 0 <= i < j < |st| ==> st[i].serial < st[j].serial
  }

  /** Where the entry of a serial is, or would go. */
  function Position<T>(st: seq<Entry<T>>, s: Serial): (k: nat)
    requires Strict(st)
    ensures k <= |st| && (forall i :: 0 <= i < k ==> st[i].serial < s)
    ensures (forall i :: k <= i < |st| ==> s <= st[i].serial)
  {
    if st == [] || st[|st| - 1].serial < s then |st| else Position(st[..|st| - 1], s)
  }

  /** mStorage[s].emplace_back(v). */
  function AddTo<T>(st: seq<Entry<T>>, s: Serial, v: T): (r: seq<Entry<T>>)
    requires Strict(st) && Ok(st)
    ensures Strict(r) && Ok(r)
  {
    var k := Position(st, s);
    if k < |st| && st[k].serial == s then st[k := Entry(s, st[k].values + [v])]
    else st[..k] + [Entry(s, [v])] + st[k..]
  }

  lemma {:induction false} InsertBetween<T>(a: seq<Item<T>>, b: seq<Item<T>>, x: Item<T>)
    requires Between(a, 0, x.serial) && Above(b, x.serial)
    ensures Insert(a + b, x) == a + [x] + b
    decreases |b|
  {
    if b == [] {
      assert a + b == a;
    } else {
      var n := |b| - 1;
      InsertBetween(a, b[..n], x);
      assert (a + b)[..|a + b| - 1] == a + b[..n] && (a + b)[|a + b| - 1] == b[n];
      assert a + [x] + b == (a + [x] + b[..n]) + [b[n]];
    }
  }

  lemma {:induction false} ContentsOfThree<T>(a: seq<Entry<T>>, e: Entry<T>, b: seq<Entry<T>>)
    ensures Contents(a + [e] + b) == Contents(a) + Items(e.values, e.serial) + Contents(b)
  {
    ContentsSplit(a + [e], b);
    ContentsAppend(a, e);
  }

  lemma {:induction false} InsertInContents<T>(a: seq<Entry<T>>, values: seq<T>, b: seq<Entry<T>>, s: Serial, v: T)
    requires (forall i :: 0 <= i < |a| ==> a[i].serial < s) && (forall i :: 0 <= i < |b| ==> s < b[i].serial)
    ensures Contents(a + [Entry(s, values + [v])] + b) ==
      Insert(Contents(a) + Items(values, s) + Contents(b), Item(s, v))
  {
    ContentsBounds(a, 0, s);
    ContentsAbove(b, s);
    ContentsOfThree(a, Entry(s, values + [v]), b);
    assert Items(values + [v], s) == Items(values, s) + [Item(s, v)];
    InsertBetween(Contents(a) + Items(values, s), Contents(b), Item(s, v));
  }

  lemma {:induction false} AddToInserts<T>(st: seq<Entry<T>>, s: Serial, v: T)
    requires Strict(st) && Ok(st)
    ensures Contents(AddTo(st, s, v)) == Insert(Contents(st), Item(s, v))
  {
    var k := Position(st, s);
    var a := st[..k];
    if k < |st| && st[k].serial == s {
      assert st == a + [st[k]] + st[k + 1..];
      AddToPresent(a, st[k].values, st[k + 1..], s, v);
    } else {
      assert st == a + st[k..];
      AddToAbsent(a, st[k..], s, v);
    }
  }

  lemma {:induction false} AddToPresent<T>(a: seq<Entry<T>>, values: seq<T>, b: seq<Entry<T>>, s: Serial, v: T)
    requires (forall i :: 0 <= i < |a| ==> a[i].serial < s) && (forall i :: 0 <= i < |b| ==> s < b[i].serial)
    ensures Contents((a + [Entry(s, values)] + b)[|a| := Entry(s, values + [v])]) ==
      Insert(Contents(a + [Entry(s, values)] + b), Item(s, v))
  {
    assert (a + [Entry(s, values)] + b)[|a| := Entry(s, values + [v])] == a + [Entry(s, values + [v])] + b;
    ContentsOfThree(a, Entry(s, values), b);
    InsertInContents(a, values, b, s, v);
  }

  lemma {:induction false} AddToAbsent<T>(a: seq<Entry<T>>, b: seq<Entry<T>>, s: Serial, v: T)
    requires (forall i :: 0 <= i < |a| ==> a[i].serial < s) && (forall i :: 0 <= i < |b| ==> s < b[i].serial)
    ensures Contents(a + [Entry(s, [v])] + b) == Insert(Contents(a + b), Item(s, v))
  {
    ContentsSplit(a, b);
    assert [] + [v] == [v];
    InsertInContents(a, [], b, s, v);
    assert Contents(a) + Items<T>([], s) == Contents(a);
  }

  lemma {:induction false} ItemsPrefix<T>(log: seq<Item<T>>, values: seq<T>, i: nat, s: Serial)
    requires i < |values|
    ensures (log + Items(values[..i], s)) + [Item(s, values[i])] == log + Items(values[..i + 1], s)
  {
    assert Items(values[..i + 1], s) == Items(values[..i], s) + [Item(s, values[i])];
  }

  class SerialMap<T> {
    var storage: seq<Entry<T>>
    /** Everything enqueued and not cleared, in enqueue order. */
    ghost var log: seq<Item<T>>

    ghost predicate Valid()
      reads this
    {
      Ok(storage) && Strict(storage) && Contents(storage) == InOrder(log)
    }

    constructor ()
      ensures Valid() && log == []
    {
      storage, log := [], [];
    }

    method Enqueue(value: T, serial: Serial)
      requires Valid()
      modifies this
      ensures Valid() && log == old(log) + [Item(serial, value)]
    {
      AddToInserts(storage, serial, value);
      InOrderAppend(log, Item(serial, value));
      storage := AddTo(storage, serial, value);
      log := log + [Item(serial, value)];
    }

    method EnqueueAll(values: seq<T>, serial: Serial)
      requires Valid() && values != []
      modifies this
      ensures Valid() && log == old(log) + Items(values, serial)
    {
      for i := 0 to |values|
        invariant Valid() && log == old(log) + Items(values[..i], serial)
      {
        ItemsPrefix(old(log), values, i, serial);
        Enqueue(values[i], serial);
      }
      assert values[..|values|] == values;
    }

    /** The values enqueued with a serial of at most s, by serial and then by enqueue order. */
    method IterateUpTo(s: Serial) returns (visited: seq<T>)
      requires Valid()
      ensures visited == Values(InOrder(UpTo(log, s)))
    {
      var end := FindUpTo(storage, s);
      visited := Iterate(storage, end);
      OrderThenSelect(log, s);
    }

    method ClearUpTo(s: Serial)
      requires Valid()
      modifies this
      ensures Valid() && log == Beyond(old(log), s)
    {
      var k := FindUpTo(storage, s);
      OrderThenSelect(log, s);
      storage, log := storage[k..], Beyond(log, s);
    }
  }

  // One run on both.

  datatype Step<T> =
    | EnqueueOneStep(value: T, serial: Serial)
    | EnqueueStep(values: seq<T>, serial: Serial)
    | ClearStep(serial: Serial)

  function LogStep<T>(log: seq<Item<T>>, step: Step<T>): (r: seq<Item<T>>) {
    match step
    case EnqueueOneStep(value, s) => log + [Item(s, value)]
    case EnqueueStep(values, s) => log + Items(values, s)
    case ClearStep(s) => Beyond(log, s)
  }

  function LogAfter<T>(steps: seq<Step<T>>): (log: seq<Item<T>>) {
    if steps == [] then [] else LogStep(LogAfter(steps[..|steps| - 1]), steps[|steps| - 1])
  }

  lemma {:induction false} LogAfterNext<T>(steps: seq<Step<T>>, i: nat)
    requires i < |steps|
    ensures LogAfter(steps[..i + 1]) == LogStep(LogAfter(steps[..i]), steps[i])
  {
    assert steps[..i + 1][..i] == steps[..i];
  }

  /** Vectors are not empty, and the serial does not go below one that is still enqueued. */
  predicate StepOk<T>(log: seq<Item<T>>, step: Step<T>) {
    || step.ClearStep?
    || ((step.EnqueueStep? ==> step.values != []) && (log != [] ==> log[|log| - 1].serial <= step.serial))
  }

  predicate NonDecreasingRun<T>(steps: seq<Step<T>>) {
    forall i :: 0 <= i < |steps| ==> StepOk(LogAfter(steps[..i]), steps[i])
  }

  method StepOnQueue<T>(queue: SerialQueue<T>, step: Step<T>)
    requires queue.Valid() && StepOk(queue.log, step)
    modifies queue
    ensures queue.Valid() && queue.log == LogStep(old(queue.log), step)
  {
    match step {
      case EnqueueOneStep(value, serial) => queue.Enqueue(value, serial);
      case EnqueueStep(values, serial) => queue.EnqueueAll(values, serial);
      case ClearStep(serial) => queue.ClearUpTo(serial);
    }
  }

  method StepOnMap<T>(map_: SerialMap<T>, step: Step<T>)
    requires map_.Valid() && (step.EnqueueStep? ==> step.values != [])
    modifies map_
    ensures map_.Valid() && map_.log == LogStep(old(map_.log), step)
  {
    match step {
      case EnqueueOneStep(value, serial) => map_.Enqueue(value, serial);
      case EnqueueStep(values, serial) => map_.EnqueueAll(values, serial);
      case ClearStep(serial) => map_.ClearUpTo(serial);
    }
  }

  /** On a non-decreasing run the map and the queue are the same container. */
  method SameOnNonDecreasingRuns<T>(steps: seq<Step<T>>, s: Serial) returns (fromQueue: seq<T>, fromMap: seq<T>)
    requires NonDecreasingRun(steps)
    ensures fromQueue == fromMap == Values(UpTo(LogAfter(steps), s))
  {
    var queue := new SerialQueue<T>();
    var map_ := new SerialMap<T>();
    for i := 0 to |steps|
      invariant fresh(queue) && queue.Valid() && queue.log == LogAfter(steps[..i])
      invariant fresh(map_) && map_.Valid() && map_.log == LogAfter(steps[..i])
    {
      LogAfterNext(steps, i);
      StepOnQueue(queue, steps[i]);
      StepOnMap(map_, steps[i]);
    }
    assert steps[..|steps|] == steps;
    fromQueue := queue.IterateUpTo(s);
    fromMap := map_.IterateUpTo(s);
  }

  /** A queue that is emptied from the front, `due` first: what is left after i of them. */
  lemma {:induction false} NextOf<T>(due: seq<Item<T>>, rest: seq<Item<T>>, i: nat)
    requires i < |due|
    ensures (due[i..] + rest)[0] == due[i] && (due[i..] + rest)[1..] == due[i + 1..] + rest
    ensures due[..i + 1] == due[..i] + [due[i]]
    ensures var left := due[i..] + rest; |rest| < |left| && rest == left[|left| - |rest|..]
  {
  }

  /** What a queue gives up and keeps at a serial. */
  lemma {:induction false} CutQueue<T>(inFlight: seq<Item<T>>, s: Serial, last: Serial)
    requires Sorted(inFlight) && Between(inFlight, 0, last)
    ensures inFlight == UpTo(inFlight, s) + Beyond(inFlight, s) && Sorted(Beyond(inFlight, s))
    ensures Between(Beyond(inFlight, s), 0, last) && Between(UpTo(inFlight, s), 0, s) && Above(Beyond(inFlight, s), s)
    ensures Between(inFlight, 0, s) ==> Between(Beyond(inFlight, s), 0, s)
  {
    Partition(inFlight, s);
    SelectedBounds(inFlight, s, last);
    if Between(inFlight, 0, s) { AllUpTo(inFlight, s); }
  }
}
