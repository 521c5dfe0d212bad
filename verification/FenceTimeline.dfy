/** Fences on the serial timeline: src/dawn_native/Fence.cpp, FenceSignalTracker.cpp, Queue.cpp and the
    serials of Device.cpp. A fence pointer is a key of a store; a SerialQueue or SerialMap is the log of
    what is enqueued in it, read as SerialStorage proves it is read. Back ends decide how far the GPU
    has come, and calls to the application are entries of a ghost log. */
module FenceTimeline {
  import opened SerialStorage
  import opened Callbacks
  import opened References

  type FenceId = int

  /** A signal: the fence will get this value. */
  datatype FenceInFlight = FenceInFlight(fence: FenceId, value: nat)
  datatype Fence = Fence(refs: nat, signaled: nat, completed: nat, requests: Requests)
  type Store = map<FenceId, Fence>

  datatype Handle = ErrorFence | Real(id: FenceId)
  /** One call of OnCompletion. */
  datatype Ask = Ask(fence: Handle, value: nat)

  type Signals = seq<Item<FenceInFlight>>
  type Requests = seq<Item<RequestId>>

  // The history of one fence: its initial value, then every value it was signaled with.

  function ValuesOf(items: Signals, f: FenceId): (r: seq<nat>) {
    if items == [] then []
    else
      var n := |items| - 1;
      ValuesOf(items[..n], f) + if items[n].value.fence == f then [items[n].value.value] else []
  }

  predicate Increasing(s: seq<nat>) {
    forall i, j :: 0 <= i < j < |s| ==> s[i] < s[j]
  }

  function Last(s: seq<nat>): (r: nat)
    requires s != []
  {
    s[|s| - 1]
  }

  lemma {:induction false} ValuesOfAppend(items: Signals, x: Item<FenceInFlight>, f: FenceId)
    ensures ValuesOf(items + [x], f) == ValuesOf(items, f) + if x.value.fence == f then [x.value.value] else []
  {
    assert (items + [x])[..|items|] == items;
  }

  lemma {:induction false} ValuesOfHead(items: Signals, f: FenceId)
    requires items != []
    ensures ValuesOf(items, f) ==
      (if items[0].value.fence == f then [items[0].value.value] else []) + ValuesOf(items[1..], f)
  {
    var n := |items| - 1;
    if n > 0 {
      ValuesOfHead(items[..n], f);
      assert items[..n][1..] == items[1..][..n - 1];
    }
  }

  lemma {:induction false} NoValuesOf(items: Signals, f: FenceId)
    requires forall i :: 0 <= i < |items| ==> items[i].value.fence != f
    ensures ValuesOf(items, f) == []
  {
    if items != [] { NoValuesOf(items[..|items| - 1], f); }
  }

  /** `done` has been applied and `pending` is still to be. */
  ghost predicate FenceOk(x: Fence, f: FenceId, done: Signals, pending: Signals) {
    var d := ValuesOf(done, f);
    var w := ValuesOf(pending, f);
    && d != [] && Increasing(d + w) && x.completed == Last(d) && x.signaled == Last(d + w)
    && forall i :: 0 <= i < |x.requests| ==> x.completed < x.requests[i].serial <= x.signaled
  }

  predicate AllIn(items: Signals, ids: set<FenceId>) {
    forall i :: 0 <= i < |items| ==> items[i].value.fence in ids
  }

  predicate AllBelow(items: Signals, bound: FenceId) {
    forall i :: 0 <= i < |items| ==> items[i].value.fence < bound
  }

  ghost predicate Kept(fences: Store, f: FenceId, done: Signals, pending: Signals) {
    f in fences && FenceOk(fences[f], f, done, pending)
  }

  ghost predicate StoreOk(fences: Store, done: Signals, pending: Signals, bound: FenceId) {
    && 0 <= bound && InBounds(fences.Keys, bound) && AllBelow(done, bound) && AllIn(pending, fences.Keys)
    && (forall f {:trigger Kept(fences, f, done, pending)} :: f in fences ==> Kept(fences, f, done, pending))
  }

  /** Who refers to f: the application, the tracker for each of `held`, and `extra` if it is f. */
  function Uses(f: FenceId, held: Signals, extern: map<FenceId, nat>, extra: FenceId): (n: nat) {
    Held(extern, f) + |ValuesOf(held, f)| + if f == extra then 1 else 0
  }

  ghost predicate RefOk(fences: Store, f: FenceId, held: Signals, extern: map<FenceId, nat>, extra: FenceId) {
    f in fences && 0 < fences[f].refs == Uses(f, held, extern, extra)
  }

  /** Fences live exactly as long as they are referred to; `extra` is a reference about to be dropped. */
  ghost predicate RefsOk(fences: Store, held: Signals, extern: map<FenceId, nat>, extra: FenceId, bound: FenceId) {
    && AllIn(held, fences.Keys) && HeldLive(extern, fences.Keys, bound) && (extra == NONE || extra in fences)
    && (forall f {:trigger RefOk(fences, f, held, extern, extra)} :: f in fences ==>
      RefOk(fences, f, held, extern, extra))
  }

  /** The values in flight strictly increase, exceed the completed value and end with the signaled one. */
  lemma {:induction false} InFlightValues(x: Fence, f: FenceId, done: Signals, pending: Signals)
    requires FenceOk(x, f, done, pending)
    ensures var w := ValuesOf(pending, f);
      && Increasing(w) && (forall i :: 0 <= i < |w| ==> x.completed < w[i] <= x.signaled)
      && x.signaled == if w == [] then x.completed else Last(w)
  {
    var d, w := ValuesOf(done, f), ValuesOf(pending, f);
    forall i, j | 0 <= i < j < |w| ensures w[i] < w[j] {
      assert (d + w)[|d| + i] < (d + w)[|d| + j];
    }
    forall i | 0 <= i < |w| ensures x.completed < w[i] <= x.signaled {
      assert (d + w)[|d| - 1] < (d + w)[|d| + i] && (d + w)[|d| + |w| - 1] == w[|w| - 1];
    }
  }

  // The requests.

  /** Call back the requests, in this order. */
  function Fire(items: Requests, status: Status): (calls: seq<Callback>) {
    if items == [] then [] else Fire(items[..|items| - 1], status) + [Callback(items[|items| - 1].value, status)]
  }

  function Count(items: Requests, r: RequestId): (n: nat) {
    if items == [] then 0 else Count(items[..|items| - 1], r) + if items[|items| - 1].value == r then 1 else 0
  }

  /** How often a request waits in the fence it was made on. */
  function Waits(fences: Store, ask: Ask, r: RequestId): (n: nat) {
    if ask.fence.Real? && ask.fence.id in fences then Count(fences[ask.fence.id].requests, r) else 0
  }

  /** Called back with success only when the fence had reached the value. */
  ghost predicate CallbackOk(c: Callback, asked: seq<Ask>, done: Signals) {
    && 0 <= c.request < |asked|
    && (c.status == Success ==>
      var ask := asked[c.request];
      ask.fence.Real? && ValuesOf(done, ask.fence.id) != [] && ask.value <= Last(ValuesOf(done, ask.fence.id)))
  }

  ghost predicate Belongs(x: Item<RequestId>, f: FenceId, asked: seq<Ask>) {
    0 <= x.value < |asked| && asked[x.value] == Ask(Real(f), x.serial)
  }

  /** Every request waits or was called back, and not both. */
  ghost predicate EachOnce(fences: Store, asked: seq<Ask>, log: seq<Callback>) {
    forall r {:trigger Calls(log, r)} :: 0 <= r < |asked| ==> Calls(log, r) + Waits(fences, asked[r], r) == 1
  }

  ghost predicate AllBelong(items: Requests, f: FenceId, asked: seq<Ask>) {
    forall i :: 0 <= i < |items| ==> Belongs(items[i], f, asked)
  }

  /** The requests are in the order in which they were made. */
  predicate ByAge(items: Requests) {
    forall i, j :: 0 <= i < j < |items| ==> items[i].value < items[j].value
  }

  ghost predicate Waiting(items: Requests, f: FenceId, asked: seq<Ask>) {
    AllBelong(items, f, asked) && ByAge(items)
  }

  ghost predicate CallbacksOk(log: seq<Callback>, asked: seq<Ask>, done: Signals) {
    forall i :: 0 <= i < |log| ==> CallbackOk(log[i], asked, done)
  }

  ghost predicate RequestsOk(fences: Store, asked: seq<Ask>, log: seq<Callback>, done: Signals) {
    && EachOnce(fences, asked, log) && CallbacksOk(log, asked, done)
    && (forall f {:trigger fences[f]} :: f in fences ==> Waiting(fences[f].requests, f, asked))
  }

  lemma {:induction false} CountAppend(items: Requests, x: Item<RequestId>, r: RequestId)
    ensures Count(items + [x], r) == Count(items, r) + if x.value == r then 1 else 0
  {
    assert (items + [x])[..|items|] == items;
  }

  lemma {:induction false} FireAt(items: Requests, status: Status)
    ensures |Fire(items, status)| == |items|
    ensures forall i :: 0 <= i < |items| ==> Fire(items, status)[i] == Callback(items[i].value, status)
  {
    if items != [] { FireAt(items[..|items| - 1], status); }
  }

  lemma {:induction false} FireAdds(log: seq<Callback>, items: Requests, status: Status, r: RequestId)
    ensures Calls(log + Fire(items, status), r) == Calls(log, r) + Count(items, r)
    decreases |items|
  {
    if items == [] {
      assert log + [] == log;
    } else {
      var n := |items| - 1;
      var c := Callback(items[n].value, status);
      FireAdds(log, items[..n], status, r);
      assert log + (Fire(items[..n], status) + [c]) == (log + Fire(items[..n], status)) + [c];
      CallsAppend(log + Fire(items[..n], status), c, r);
    }
  }

  lemma {:induction false} InsertCount(items: Requests, x: Item<RequestId>, r: RequestId)
    ensures Count(Insert(items, x), r) == Count(items, r) + if x.value == r then 1 else 0
  {
    if items == [] || items[|items| - 1].serial <= x.serial {
      CountAppend(items, x, r);
    } else {
      var n := |items| - 1;
      InsertCount(items[..n], x, r);
      CountAppend(Insert(items[..n], x), items[n], r);
    }
  }

  lemma {:induction false} InOrderCount(items: Requests, r: RequestId)
    ensures Count(InOrder(items), r) == Count(items, r)
  {
    if items != [] {
      var n := |items| - 1;
      InOrderCount(items[..n], r);
      InsertCount(InOrder(items[..n]), items[n], r);
    }
  }

  lemma {:induction false} SelectCount(items: Requests, s: Serial, r: RequestId)
    ensures Count(UpTo(items, s), r) + Count(Beyond(items, s), r) == Count(items, r)
  {
    if items != [] {
      var n := |items| - 1;
      SelectCount(items[..n], s, r);
      assert items == items[..n] + [items[n]];
      SelectAppend(items[..n], items[n], s);
      if items[n].serial <= s {
        CountAppend(UpTo(items[..n], s), items[n], r);
        assert Beyond(items, s) == Beyond(items[..n], s);
      } else {
        assert UpTo(items, s) == UpTo(items[..n], s);
        CountAppend(Beyond(items[..n], s), items[n], r);
      }
    }
  }

  /** Those due and those that stay are those there were. */
  lemma {:induction false} DueAndLeft(items: Requests, s: Serial, r: RequestId)
    ensures Count(items, r) == Count(InOrder(UpTo(items, s)), r) + Count(Beyond(items, s), r)
  {
    InOrderCount(UpTo(items, s), r);
    SelectCount(items, s, r);
  }

  lemma {:induction false} InsertedFrom(items: Requests, x: Item<RequestId>)
    ensures forall i :: 0 <= i < |Insert(items, x)| ==> Insert(items, x)[i] == x || Insert(items, x)[i] in items
  {
    if items != [] { InsertedFrom(items[..|items| - 1], x); }
  }

  lemma {:induction false} OrderedFrom(items: Requests)
    ensures forall i :: 0 <= i < |InOrder(items)| ==> InOrder(items)[i] in items
  {
    if items != [] {
      OrderedFrom(items[..|items| - 1]);
      InsertedFrom(InOrder(items[..|items| - 1]), items[|items| - 1]);
    }
  }

  lemma {:induction false} SelectedFrom(items: Requests, s: Serial)
    ensures forall i :: 0 <= i < |UpTo(items, s)| ==> UpTo(items, s)[i] in items && UpTo(items, s)[i].serial <= s
    ensures forall i :: 0 <= i < |Beyond(items, s)| ==> Beyond(items, s)[i] in items && Beyond(items, s)[i].serial > s
  {
    if items != [] { SelectedFrom(items[..|items| - 1], s); }
  }

  // The steps, on values.

  /** The fence gets a larger value, and the tracker refers to it once more. */
  function Signaled(fences: Store, f: FenceId, value: nat): (r: Store)
    requires f in fences
  {
    fences[f := fences[f].(signaled := value, refs := fences[f].refs + 1)]
  }

  /** One more request waits in the fence, and nothing else changes. */
  function Awaiting(fences: Store, f: FenceId, x: Item<RequestId>): (r: Store)
    requires f in fences
  {
    fences[f := fences[f].(requests := fences[f].requests + [x])]
  }

  function AfterCompleted(x: Fence, value: nat): (r: Fence) {
    x.(completed := value, requests := Beyond(x.requests, value))
  }

  /** Applying the oldest signal in flight: the asserts of SetCompletedValue hold. */
  lemma {:induction false} CompleteStep(fences: Store, done: Signals, pending: Signals, bound: FenceId)
    requires StoreOk(fences, done, pending, bound) && pending != []
    ensures var FenceInFlight(f, v) := pending[0].value;
      && f in fences && fences[f].completed < v <= fences[f].signaled
      && StoreOk(fences[f := AfterCompleted(fences[f], v)], done + [pending[0]], pending[1..], bound)
  {
    var FenceInFlight(f, v) := pending[0].value;
    var fences' := fences[f := AfterCompleted(fences[f], v)];
    assert Kept(fences, f, done, pending);
    KeptCompleted(fences, f, done, pending);
    var done', pending' := done + [pending[0]], pending[1..];
    forall g | g in fences' ensures Kept(fences', g, done', pending') {
      assert Kept(fences, g, done, pending);
      KeptCompleted(fences, g, done, pending);
    }
    assert fences'.Keys == fences.Keys;
    assert AllIn(pending', fences.Keys) && AllBelow(done', bound);
  }

  lemma {:induction false} KeptCompleted(fences: Store, g: FenceId, done: Signals, pending: Signals)
    requires pending != [] && pending[0].value.fence in fences && Kept(fences, g, done, pending)
    ensures var FenceInFlight(f, v) := pending[0].value;
      && Kept(fences[f := AfterCompleted(fences[f], v)], g, done + [pending[0]], pending[1..])
      && (f == g ==> fences[g].completed < v <= fences[g].signaled)
  {
    if pending[0].value.fence == g {
      OwnFenceCompleted(fences[g], g, done, pending);
    } else {
      OtherFenceCompleted(fences[g], g, done, pending);
    }
  }

  lemma {:induction false} OtherFenceCompleted(x: Fence, f: FenceId, done: Signals, pending: Signals)
    requires FenceOk(x, f, done, pending) && pending != [] && pending[0].value.fence != f
    ensures FenceOk(x, f, done + [pending[0]], pending[1..])
  {
    ValuesOfHead(pending, f);
    ValuesOfAppend(done, pending[0], f);
    assert ValuesOf(done + [pending[0]], f) == ValuesOf(done, f) && ValuesOf(pending[1..], f) == ValuesOf(pending, f);
  }

  lemma {:induction false} OwnFenceCompleted(x: Fence, f: FenceId, done: Signals, pending: Signals)
    requires FenceOk(x, f, done, pending) && pending != [] && pending[0].value.fence == f
    ensures x.completed < pending[0].value.value <= x.signaled
    ensures FenceOk(AfterCompleted(x, pending[0].value.value), f, done + [pending[0]], pending[1..])
  {
    var v := pending[0].value.value;
    InFlightValues(x, f, done, pending);
    ValuesOfHead(pending, f);
    ValuesOfAppend(done, pending[0], f);
    assert v == ValuesOf(pending, f)[0];
    assert ValuesOf(done + [pending[0]], f) + ValuesOf(pending[1..], f) == ValuesOf(done, f) + ValuesOf(pending, f);
    forall i | 0 <= i < |Beyond(x.requests, v)| ensures v < Beyond(x.requests, v)[i].serial <= x.signaled {
      SelectedFrom(x.requests, v);
    }
  }

  /** Completing a fence calls back exactly the requests that it reaches. */
  lemma {:induction false} FireStep(fences: Store, f: FenceId, v: nat, asked: seq<Ask>, log: seq<Callback>,
                                    done: Signals, x: Item<FenceInFlight>, status: Status)
    requires RequestsOk(fences, asked, log, done) && f in fences && x.value == FenceInFlight(f, v)
    requires ValuesOf(done, f) != [] && v >= Last(ValuesOf(done, f))
    ensures RequestsOk(fences[f := AfterCompleted(fences[f], v)], asked,
      log + Fire(InOrder(UpTo(fences[f].requests, v)), status), done + [x])
  {
    var requests := fences[f].requests;
    var due := InOrder(UpTo(requests, v));
    FireOnce(fences, f, v, asked, log, status);
    assert Waiting(requests, f, asked);
    DueBelong(requests, f, v, asked);
    LeftByAge(requests, v);
    CallbacksStay(asked, log, done, x);
    FireAt(due, status);
    forall i | 0 <= i < |due| ensures CallbackOk(Callback(due[i].value, status), asked, done + [x]) {
      ValuesOfAppend(done, x, f);
      assert Belongs(due[i], f, asked);
    }
  }

  lemma {:induction false} LeftByAge(items: Requests, s: Serial)
    requires ByAge(items)
    ensures ByAge(Beyond(items, s)) && ByAge(UpTo(items, s))
  {
    if items != [] {
      var n := |items| - 1;
      LeftByAge(items[..n], s);
      SelectedFrom(items[..n], s);
      YoungestLast(items[..n], Beyond(items[..n], s), items[n]);
      YoungestLast(items[..n], UpTo(items[..n], s), items[n]);
    }
  }

  lemma YoungestLast(items: Requests, some: Requests, x: Item<RequestId>)
    requires ByAge(items + [x]) && ByAge(some) && forall i :: 0 <= i < |some| ==> some[i] in items
    ensures ByAge(some + [x])
  {
    forall i | 0 <= i < |some| ensures some[i].value < x.value {
      var k :| 0 <= k < |items| && items[k] == some[i];
      assert (items + [x])[k].value < (items + [x])[|items|].value;
    }
  }

  lemma {:induction false} FireOnce(fences: Store, f: FenceId, v: nat, asked: seq<Ask>, log: seq<Callback>,
                                    status: Status)
    requires EachOnce(fences, asked, log) && f in fences && AllBelong(fences[f].requests, f, asked)
    ensures EachOnce(fences[f := AfterCompleted(fences[f], v)], asked,
      log + Fire(InOrder(UpTo(fences[f].requests, v)), status))
  {
    var due := InOrder(UpTo(fences[f].requests, v));
    var fences' := fences[f := AfterCompleted(fences[f], v)];
    forall r | 0 <= r < |asked| ensures Calls(log + Fire(due, status), r) + Waits(fences', asked[r], r) == 1 {
      assert Calls(log, r) + Waits(fences, asked[r], r) == 1;
      FireAdds(log, due, status, r);
      DueAndLeft(fences[f].requests, v, r);
      if asked[r].fence != Real(f) { NotWaiting(fences[f].requests, f, asked, r); }
    }
  }

  lemma {:induction false} DueBelong(requests: Requests, f: FenceId, v: nat, asked: seq<Ask>)
    requires AllBelong(requests, f, asked)
    ensures AllBelong(InOrder(UpTo(requests, v)), f, asked) && AllBelong(Beyond(requests, v), f, asked)
    ensures forall i :: 0 <= i < |InOrder(UpTo(requests, v))| ==> InOrder(UpTo(requests, v))[i].serial <= v
  {
    SelectedFrom(requests, v);
    OrderedFrom(UpTo(requests, v));
  }

  /** What was true of a callback stays true as the fence goes on. */
  lemma {:induction false} CallbacksStay(asked: seq<Ask>, log: seq<Callback>, done: Signals, x: Item<FenceInFlight>)
    requires CallbacksOk(log, asked, done)
    requires ValuesOf(done, x.value.fence) == [] || x.value.value >= Last(ValuesOf(done, x.value.fence))
    ensures CallbacksOk(log, asked, done + [x])
  {
    forall i | 0 <= i < |log| ensures CallbackOk(log[i], asked, done + [x]) {
      assert CallbackOk(log[i], asked, done);
      var ask := asked[log[i].request];
      if ask.fence.Real? { ValuesOfAppend(done, x, ask.fence.id); }
    }
  }

  lemma {:induction false} CountNone(items: Requests, r: RequestId)
    requires forall i :: 0 <= i < |items| ==> items[i].value != r
    ensures Count(items, r) == 0
  {
    if items != [] { CountNone(items[..|items| - 1], r); }
  }

  lemma {:induction false} NotWaiting(items: Requests, f: FenceId, asked: seq<Ask>, r: RequestId)
    requires AllBelong(items, f, asked) && 0 <= r < |asked| && asked[r].fence != Real(f)
    ensures Count(items, r) == 0
  {
    forall i | 0 <= i < |items| ensures items[i].value != r {
      assert Belongs(items[i], f, asked);
    }
    CountNone(items, r);
  }

  lemma {:induction false} SomeValuesOf(items: Signals, k: nat)
    requires k < |items|
    ensures ValuesOf(items, items[k].value.fence) != []
  {
    var n := |items| - 1;
    if k < n { SomeValuesOf(items[..n], k); }
  }

  /** Signaling a fence with a larger value. */
  lemma {:induction false} SignalStep(fences: Store, done: Signals, inFlight: Signals, bound: FenceId,
                                      x: Item<FenceInFlight>)
    requires StoreOk(fences, done, inFlight, bound)
    requires x.value.fence in fences && x.value.value > fences[x.value.fence].signaled
    ensures var f := x.value.fence;
      StoreOk(Signaled(fences, f, x.value.value), done, inFlight + [x], bound)
  {
    var f := x.value.fence;
    var fences' := Signaled(fences, f, x.value.value);
    forall g | g in fences' ensures Kept(fences', g, done, inFlight + [x]) {
      assert Kept(fences, g, done, inFlight);
      KeptSignaled(fences, g, done, inFlight, x);
    }
    assert fences'.Keys == fences.Keys;
  }

  lemma {:induction false} KeptSignaled(fences: Store, g: FenceId, done: Signals, inFlight: Signals,
                                        x: Item<FenceInFlight>)
    requires Kept(fences, g, done, inFlight)
    requires x.value.fence in fences && x.value.value > fences[x.value.fence].signaled
    ensures var f := x.value.fence;
      Kept(Signaled(fences, f, x.value.value), g, done, inFlight + [x])
  {
    if x.value.fence == g {
      OwnFenceSignaled(fences[g], g, done, inFlight, x);
    } else {
      ValuesOfAppend(inFlight, x, g);
      assert ValuesOf(inFlight + [x], g) == ValuesOf(inFlight, g);
    }
  }

  lemma {:induction false} IncreasingAppend(h: seq<nat>, v: nat)
    requires h != [] && Increasing(h) && v > Last(h)
    ensures Increasing(h + [v])
  {
    assert forall i :: 0 <= i < |h| ==> h[i] <= Last(h);
  }

  lemma {:induction false} OwnFenceSignaled(y: Fence, f: FenceId, done: Signals, inFlight: Signals,
                                            x: Item<FenceInFlight>)
    requires FenceOk(y, f, done, inFlight) && x.value.fence == f && x.value.value > y.signaled
    ensures FenceOk(y.(signaled := x.value.value, refs := y.refs + 1), f, done, inFlight + [x])
  {
    var h := ValuesOf(done, f) + ValuesOf(inFlight, f);
    ValuesOfAppend(inFlight, x, f);
    IncreasingAppend(h, x.value.value);
    assert ValuesOf(done, f) + ValuesOf(inFlight + [x], f) == h + [x.value.value];
  }

  /** A new fence starts with its history at the initial value. */
  lemma {:induction false} CreateStep(fences: Store, done: Signals, inFlight: Signals, bound: FenceId, initial: nat)
    requires StoreOk(fences, done, inFlight, bound)
    ensures StoreOk(fences[bound := Fence(1, initial, initial, [])], done + [Item(0, FenceInFlight(bound, initial))],
      inFlight, bound + 1)
    ensures ValuesOf(done, bound) == [] && ValuesOf(inFlight, bound) == [] && bound !in fences
  {
    var x := Item(0, FenceInFlight(bound, initial));
    var fences' := fences[bound := Fence(1, initial, initial, [])];
    NoValuesOf(done, bound);
    NoValuesOf(inFlight, bound);
    assert fences'.Keys == fences.Keys + {bound};
    assert AllBelow(done + [x], bound + 1) && AllIn(inFlight, fences'.Keys) && InBounds(fences'.Keys, bound + 1);
    forall g | g in fences' ensures Kept(fences', g, done + [x], inFlight) {
      if g != bound { assert Kept(fences, g, done, inFlight); }
      KeptCreated(fences, g, done, inFlight, bound, initial);
    }
  }

  lemma {:induction false} KeptCreated(fences: Store, g: FenceId, done: Signals, inFlight: Signals, n: FenceId,
                                       initial: nat)
    requires ValuesOf(done, n) == [] && ValuesOf(inFlight, n) == [] && (g == n || Kept(fences, g, done, inFlight))
    ensures Kept(fences[n := Fence(1, initial, initial, [])], g, done + [Item(0, FenceInFlight(n, initial))], inFlight)
  {
    if g == n {
      NewFenceOk(n, initial, done, inFlight);
    } else {
      OldFenceOk(fences[g], g, done, inFlight, Item(0, FenceInFlight(n, initial)));
    }
  }

  lemma {:induction false} OldFenceOk(y: Fence, g: FenceId, done: Signals, inFlight: Signals, x: Item<FenceInFlight>)
    requires FenceOk(y, g, done, inFlight) && g != x.value.fence
    ensures FenceOk(y, g, done + [x], inFlight)
  {
    ValuesOfAppend(done, x, g);
    assert ValuesOf(done + [x], g) == ValuesOf(done, g);
  }

  lemma {:induction false} NewFenceOk(f: FenceId, initial: nat, done: Signals, inFlight: Signals)
    requires ValuesOf(done, f) == [] && ValuesOf(inFlight, f) == []
    ensures FenceOk(Fence(1, initial, initial, []), f, done + [Item(0, FenceInFlight(f, initial))], inFlight)
  {
    ValuesOfAppend(done, Item(0, FenceInFlight(f, initial)), f);
    assert [initial] + [] == [initial];
  }

  /** A fence without signals in flight has nothing left to answer: its destructor is silent. */
  lemma {:induction false} NothingWaits(x: Fence, f: FenceId, done: Signals, pending: Signals)
    requires FenceOk(x, f, done, pending) && ValuesOf(pending, f) == []
    ensures x.requests == [] && x.completed == x.signaled
  {
    InFlightValues(x, f, done, pending);
    if x.requests != [] { WaitsForSignal(x, f, done, pending); }
  }

  lemma {:induction false} WaitsForSignal(x: Fence, f: FenceId, done: Signals, pending: Signals)
    requires FenceOk(x, f, done, pending) && x.requests != []
    ensures ValuesOf(pending, f) != []
  {
    assert x.completed < x.requests[0].serial <= x.signaled;
    InFlightValues(x, f, done, pending);
  }

  /** Dropping the last reference: the fence has nothing left to answer. */
  lemma {:induction false} DestroyStep(fences: Store, f: FenceId, done: Signals, pending: Signals, bound: FenceId)
    requires StoreOk(fences, done, pending, bound) && f in fences && ValuesOf(pending, f) == []
    ensures fences[f].requests == [] && StoreOk(fences - {f}, done, pending, bound)
  {
    assert Kept(fences, f, done, pending);
    NothingWaits(fences[f], f, done, pending);
    forall g | g in fences - {f} ensures Kept(fences - {f}, g, done, pending) { assert Kept(fences, g, done, pending); }
    forall i | 0 <= i < |pending| ensures pending[i].value.fence in fences - {f} { SomeValuesOf(pending, i); }
  }

  lemma {:induction false} SameValues(fences: Store, fences': Store, done: Signals, pending: Signals, bound: FenceId)
    requires StoreOk(fences, done, pending, bound) && fences'.Keys == fences.Keys
    requires forall f :: f in fences ==> fences'[f] == fences[f].(refs := fences'[f].refs)
    ensures StoreOk(fences', done, pending, bound)
  {
    forall g | g in fences' ensures Kept(fences', g, done, pending) { assert Kept(fences, g, done, pending); }
  }

  lemma {:induction false} SameRefs(fences: Store, fences': Store, held: Signals, extern: map<FenceId, nat>,
                                    extra: FenceId, bound: FenceId)
    requires RefsOk(fences, held, extern, extra, bound) && fences'.Keys == fences.Keys
    requires forall f :: f in fences ==> fences'[f].refs == fences[f].refs
    ensures RefsOk(fences', held, extern, extra, bound)
  {
    forall g | g in fences'
      ensures RefOk(fences', g, held, extern, extra)
    {
      assert RefOk(fences, g, held, extern, extra);
    }
  }

  /** Dropping the reference `f`. */
  lemma {:induction false} DropRef(fences: Store, f: FenceId, held: Signals, extern: map<FenceId, nat>, bound: FenceId)
    requires RefsOk(fences, held, extern, f, bound) && f in fences && InBounds(fences.Keys, bound)
    ensures fences[f].refs > 1 ==>
      RefsOk(fences[f := fences[f].(refs := fences[f].refs - 1)], held, extern, NONE, bound)
    ensures fences[f].refs == 1 ==> ValuesOf(held, f) == [] && RefsOk(fences - {f}, held, extern, NONE, bound)
    ensures fences[f].refs > 0
  {
    assert RefOk(fences, f, held, extern, f);
    var fences' := if fences[f].refs > 1 then fences[f := fences[f].(refs := fences[f].refs - 1)] else fences - {f};
    forall g | g in fences' ensures RefOk(fences', g, held, extern, NONE) { assert RefOk(fences, g, held, extern, f); }
    forall i | 0 <= i < |held| ensures held[i].value.fence in fences' { SomeValuesOf(held, i); }
  }

  lemma {:induction false} SignalRef(fences: Store, f: FenceId, value: nat, held: Signals, x: Item<FenceInFlight>,
                                     extern: map<FenceId, nat>, bound: FenceId)
    requires RefsOk(fences, held, extern, NONE, bound) && f in fences && x.value.fence == f
    ensures RefsOk(Signaled(fences, f, value), held + [x], extern, NONE, bound)
  {
    var fences' := Signaled(fences, f, value);
    forall g | g in fences' ensures RefOk(fences', g, held + [x], extern, NONE) {
      assert RefOk(fences, g, held, extern, NONE);
      ValuesOfAppend(held, x, g);
      assert |ValuesOf(held + [x], g)| == |ValuesOf(held, g)| + if g == f then 1 else 0;
    }
    assert fences'.Keys == fences.Keys;
  }

  lemma {:induction false} CreateRef(fences: Store, n: FenceId, initial: nat, held: Signals, extern: map<FenceId, nat>)
    requires RefsOk(fences, held, extern, NONE, n) && n !in fences && ValuesOf(held, n) == [] && 0 <= n
    ensures RefsOk(fences[n := Fence(1, initial, initial, [])], held, extern[n := 1], NONE, n + 1)
  {
    var fences', extern' := fences[n := Fence(1, initial, initial, [])], extern[n := 1];
    forall g | g in fences'
      ensures RefOk(fences', g, held, extern', NONE)
    {
      assert g != n ==> RefOk(fences, g, held, extern, NONE);
    }
  }

  /** The tracker gives up the reference at the head of its queue. */
  lemma {:induction false} ForgetRef(fences: Store, held: Signals, extern: map<FenceId, nat>, bound: FenceId)
    requires RefsOk(fences, held, extern, NONE, bound) && held != [] && InBounds(fences.Keys, bound)
    ensures RefsOk(fences, held[1..], extern, held[0].value.fence, bound)
  {
    var f := held[0].value.fence;
    forall g | g in fences ensures RefOk(fences, g, held[1..], extern, f) {
      assert RefOk(fences, g, held, extern, NONE);
      ValuesOfHead(held, g);
    }
  }

  /** The application gives up a reference. */
  lemma {:induction false} GiveUpRef(fences: Store, f: FenceId, held: Signals, extern: map<FenceId, nat>,
                                     bound: FenceId)
    requires RefsOk(fences, held, extern, NONE, bound) && f in fences && Held(extern, f) > 0
    requires InBounds(fences.Keys, bound)
    ensures RefsOk(fences, held, extern[f := Held(extern, f) - 1], f, bound)
  {
    forall g | g in fences ensures RefOk(fences, g, held, extern[f := Held(extern, f) - 1], f) {
      assert RefOk(fences, g, held, extern, NONE);
    }
  }

  // What a tick does.

  /** The fences after the signals have been applied. */
  function AfterSignals(fences: Store, due: Signals): (r: Store)
    ensures r.Keys == fences.Keys
  {
    if due == [] then fences
    else
      var n := |due| - 1;
      var now := AfterSignals(fences, due[..n]);
      var f := due[n].value.fence;
      if f in now then now[f := AfterCompleted(now[f], due[n].value.value)] else now
  }

  /** The callbacks that applying the signals makes: signal by signal, by value and then as they came. */
  function CallsFor(fences: Store, due: Signals, status: Status): (calls: seq<Callback>) {
    if due == [] then []
    else
      var n := |due| - 1;
      var now := AfterSignals(fences, due[..n]);
      var f := due[n].value.fence;
      CallsFor(fences, due[..n], status)
        + if f in now then Fire(InOrder(UpTo(now[f].requests, due[n].value.value)), status) else []
  }

  lemma {:induction false} CallsForStatus(fences: Store, due: Signals, status: Status)
    ensures forall i :: 0 <= i < |CallsFor(fences, due, status)| ==> CallsFor(fences, due, status)[i].status == status
  {
    if due != [] {
      var n := |due| - 1;
      var now := AfterSignals(fences, due[..n]);
      var f := due[n].value.fence;
      CallsForStatus(fences, due[..n], status);
      if f in now { FireAt(InOrder(UpTo(now[f].requests, due[n].value.value)), status); }
    }
  }

  /** r waits for a value that one of the signals gives to its fence. */
  ghost predicate Reached(fences: Store, asked: seq<Ask>, due: Signals, r: RequestId) {
    && 0 <= r < |asked| && Waits(fences, asked[r], r) > 0
    && exists i :: 0 <= i < |due| && due[i].value.fence == asked[r].fence.id && due[i].value.value >= asked[r].value
  }

  /** The k-th signal is the first to give the fence of the request its value. */
  predicate ReachedBy(due: Signals, ask: Ask, k: nat) {
    && k < |due| && Reaches(due[k], ask)
    && forall j {:trigger Reaches(due[j], ask)} :: 0 <= j < k ==> !Reaches(due[j], ask)
  }

  predicate Reaches(x: Item<FenceInFlight>, ask: Ask) {
    ask.fence == Real(x.value.fence) && ask.value <= x.value.value
  }

  /** Request r is called before request s: by the signals that reach them, then by value, then by age. */
  ghost predicate Precedes(due: Signals, asked: seq<Ask>, r: RequestId, s: RequestId) {
    && 0 <= r < |asked| && 0 <= s < |asked|
    && exists k: nat, l: nat :: ReachedBy(due, asked[r], k) && ReachedBy(due, asked[s], l)
         && (k < l || (k == l && KeyLess(Item(asked[r].value, r), Item(asked[s].value, s))))
  }

  predicate KeyOrder(items: Requests) {
    forall i, j :: 0 <= i < j < |items| ==> KeyLess(items[i], items[j])
  }

  predicate KeyLess(x: Item<RequestId>, y: Item<RequestId>) {
    x.serial < y.serial || (x.serial == y.serial && x.value < y.value)
  }

  lemma {:induction false} InsertInKeyOrder(items: Requests, x: Item<RequestId>)
    requires KeyOrder(items) && forall i :: 0 <= i < |items| ==> items[i].value < x.value
    ensures KeyOrder(Insert(items, x))
  {
    if items != [] {
      var n := |items| - 1;
      if items[n].serial <= x.serial {
        assert forall i :: 0 <= i < n ==> KeyLess(items[i], items[n]);
      } else {
        InsertInKeyOrder(items[..n], x);
        InsertedFrom(items[..n], x);
        assert forall i :: 0 <= i < n ==> KeyLess(items[i], items[n]);
      }
    }
  }

  lemma {:induction false} OrderedByKey(items: Requests)
    requires ByAge(items)
    ensures KeyOrder(InOrder(items))
  {
    if items != [] {
      var n := |items| - 1;
      OrderedByKey(items[..n]);
      OrderedFrom(items[..n]);
      InsertInKeyOrder(InOrder(items[..n]), items[n]);
    }
  }

  /** What still waits after some signals: those of the requests there were that no signal has reached. */
  lemma {:induction false} LeftAfter(fences: Store, due: Signals, n: nat, f: FenceId, asked: seq<Ask>)
    requires n <= |due| && f in fences && Waiting(fences[f].requests, f, asked)
    ensures var left := AfterSignals(fences, due[..n])[f].requests;
      && Waiting(left, f, asked) && (forall i :: 0 <= i < |left| ==> left[i] in fences[f].requests)
      && (forall i, j :: 0 <= i < |left| && 0 <= j < n ==> !Reaches(due[j], asked[left[i].value]))
  {
    if n > 0 {
      LeftAfter(fences, due, n - 1, f, asked);
      assert due[..n][..n - 1] == due[..n - 1];
      var before := AfterSignals(fences, due[..n - 1])[f].requests;
      if due[n - 1].value.fence == f {
        LeftByAge(before, due[n - 1].value.value);
        SelectedFrom(before, due[n - 1].value.value);
      }
    }
  }

  /** r waits, and one of the first n signals is the first to reach it. */
  ghost predicate Called(fences: Store, due: Signals, n: nat, asked: seq<Ask>, r: RequestId) {
    0 <= r < |asked| && Waits(fences, asked[r], r) > 0 && exists k: nat :: k < n && ReachedBy(due, asked[r], k)
  }

  ghost predicate AllCalled(fences: Store, due: Signals, n: nat, asked: seq<Ask>, calls: seq<Callback>) {
    forall i {:trigger calls[i]} :: 0 <= i < |calls| ==> Called(fences, due, n, asked, calls[i].request)
  }

  ghost predicate InTurn(due: Signals, asked: seq<Ask>, calls: seq<Callback>) {
    forall i, j {:trigger Precedes(due, asked, calls[i].request, calls[j].request)} :: 0 <= i < j < |calls| ==>
      Precedes(due, asked, calls[i].request, calls[j].request)
  }

  /** A request that still waits when the n-th signal reaches it. */
  lemma {:induction false} FirstToReach(fences: Store, due: Signals, n: nat, asked: seq<Ask>, x: Item<RequestId>)
    requires n < |due| && due[n].value.fence in fences
    requires Waiting(fences[due[n].value.fence].requests, due[n].value.fence, asked)
    requires x in AfterSignals(fences, due[..n])[due[n].value.fence].requests && x.serial <= due[n].value.value
    ensures Belongs(x, due[n].value.fence, asked) && ReachedBy(due, asked[x.value], n)
    ensures Waits(fences, asked[x.value], x.value) > 0
  {
    var f := due[n].value.fence;
    LeftAfter(fences, due, n, f, asked);
    var left := AfterSignals(fences, due[..n])[f].requests;
    var i :| 0 <= i < |left| && left[i] == x;
    assert Belongs(left[i], f, asked);
    CountSome(fences[f].requests, x);
  }

  /** The calls that one more signal makes are those of the requests that it is the first to reach, by value
      and then by age. */
  lemma {:induction false} NextCalls(fences: Store, due: Signals, n: nat, asked: seq<Ask>, items: Requests,
                                     status: Status)
    requires n < |due| && due[n].value.fence in fences
    requires Waiting(fences[due[n].value.fence].requests, due[n].value.fence, asked)
    requires items == InOrder(UpTo(AfterSignals(fences, due[..n])[due[n].value.fence].requests, due[n].value.value))
    ensures forall i :: 0 <= i < |items| ==>
      Belongs(items[i], due[n].value.fence, asked) && ReachedBy(due, asked[items[i].value], n)
    ensures AllCalled(fences, due, n + 1, asked, Fire(items, status)) && InTurn(due, asked, Fire(items, status))
  {
    var FenceInFlight(f, v) := due[n].value;
    var now := AfterSignals(fences, due[..n])[f].requests;
    LeftAfter(fences, due, n, f, asked);
    FireAt(items, status);
    SelectedFrom(now, v);
    OrderedFrom(UpTo(now, v));
    LeftByAge(now, v);
    OrderedByKey(UpTo(now, v));
    forall i | 0 <= i < |items|
      ensures Belongs(items[i], f, asked) && ReachedBy(due, asked[items[i].value], n)
      ensures Called(fences, due, n + 1, asked, items[i].value)
    {
      FirstToReach(fences, due, n, asked, items[i]);
    }
    forall i, j | 0 <= i < j < |items| ensures Precedes(due, asked, items[i].value, items[j].value) {
      assert KeyLess(items[i], items[j]);
    }
  }

  lemma {:induction false} CountSome(items: Requests, x: Item<RequestId>)
    requires x in items
    ensures Count(items, x.value) > 0
  {
    var n := |items| - 1;
    if items[n] != x { CountSome(items[..n], x); }
  }

  ghost predicate AllWaiting(fences: Store, due: Signals, asked: seq<Ask>) {
    forall j :: 0 <= j < |due| ==>
      due[j].value.fence in fences && Waiting(fences[due[j].value.fence].requests, due[j].value.fence, asked)
  }

  /** The calls of a tick: they are of requests that the signals reach, in the order of the signals that reach
      them, then by value, and then by age. */
  lemma {:induction false} CallsInOrder(fences: Store, due: Signals, n: nat, asked: seq<Ask>, status: Status)
    requires n <= |due| && AllWaiting(fences, due, asked)
    ensures AllCalled(fences, due, n, asked, CallsFor(fences, due[..n], status))
    ensures InTurn(due, asked, CallsFor(fences, due[..n], status))
  {
    if n > 0 {
      var m := n - 1;
      var items := InOrder(UpTo(AfterSignals(fences, due[..m])[due[m].value.fence].requests, due[m].value.value));
      var before := CallsFor(fences, due[..m], status);
      CallsInOrder(fences, due, m, asked, status);
      NextCalls(fences, due, m, asked, items, status);
      assert due[..n][..m] == due[..m];
      assert CallsFor(fences, due[..n], status) == before + Fire(items, status);
      FireAt(items, status);
      MoreCalls(fences, due, m, asked, before, Fire(items, status));
    }
  }

  /** These are calls that the signals make, in turn and all with the status. */
  ghost predicate CallsOk(fences: Store, due: Signals, asked: seq<Ask>, calls: seq<Callback>, status: Status) {
    && AllCalled(fences, due, |due|, asked, calls) && InTurn(due, asked, calls)
    && forall i {:trigger calls[i]} :: 0 <= i < |calls| ==> calls[i].status == status
  }

  lemma {:induction false} TickCalls(fences: Store, asked: seq<Ask>, log: seq<Callback>, done: Signals, due: Signals,
                                     rest: Signals, bound: FenceId, status: Status)
    requires RequestsOk(fences, asked, log, done) && StoreOk(fences, done, due + rest, bound)
    ensures CallsOk(fences, due, asked, CallsFor(fences, due, status), status)
  {
    forall j | 0 <= j < |due|
      ensures due[j].value.fence in fences && Waiting(fences[due[j].value.fence].requests, due[j].value.fence, asked)
    {
      assert (due + rest)[j].value.fence in fences;
    }
    CallsInOrder(fences, due, |due|, asked, status);
    CallsForStatus(fences, due, status);
    assert due[..|due|] == due;
  }

  lemma {:induction false} MoreCalls(fences: Store, due: Signals, m: nat, asked: seq<Ask>, before: seq<Callback>,
                                     calls: seq<Callback>)
    requires AllCalled(fences, due, m, asked, before) && InTurn(due, asked, before)
    requires AllCalled(fences, due, m + 1, asked, calls) && InTurn(due, asked, calls)
    requires forall i {:trigger calls[i]} :: 0 <= i < |calls| ==> ReachedBy(due, asked[calls[i].request], m)
    ensures AllCalled(fences, due, m + 1, asked, before + calls) && InTurn(due, asked, before + calls)
  {
    var all := before + calls;
    forall i | 0 <= i < |all| ensures Called(fences, due, m + 1, asked, all[i].request) {
      if i < |before| {
        assert Called(fences, due, m, asked, before[i].request);
        var k: nat :| k < m && ReachedBy(due, asked[before[i].request], k);
        assert k < m + 1;
      } else {
        assert Called(fences, due, m + 1, asked, calls[i - |before|].request);
      }
    }
    forall i, j | 0 <= i < j < |all| ensures Precedes(due, asked, all[i].request, all[j].request) {
      if j < |before| {
        assert Precedes(due, asked, before[i].request, before[j].request);
      } else if i >= |before| {
        assert Precedes(due, asked, calls[i - |before|].request, calls[j - |before|].request);
      } else {
        assert Called(fences, due, m, asked, before[i].request);
        var k: nat :| k < m && ReachedBy(due, asked[before[i].request], k);
        assert Called(fences, due, m + 1, asked, calls[j - |before|].request);
        assert ReachedBy(due, asked[calls[j - |before|].request], m);
      }
    }
  }

  lemma {:induction false} AppliedBelowLast(items: Signals, k: nat)
    requires k < |items| && Increasing(ValuesOf(items, items[k].value.fence))
    ensures ValuesOf(items, items[k].value.fence) != []
    ensures items[k].value.value <= Last(ValuesOf(items, items[k].value.fence))
  {
    var f, n := items[k].value.fence, |items| - 1;
    if k < n {
      var v := ValuesOf(items[..n], f);
      assert Increasing(v) by { assert forall i :: 0 <= i < |v| ==> ValuesOf(items, f)[i] == v[i]; }
      AppliedBelowLast(items[..n], k);
      assert ValuesOf(items, f)[|v| - 1] == Last(v);
    }
  }

  lemma {:induction false} PrefixIncreasing(a: seq<nat>, b: seq<nat>)
    requires Increasing(a + b)
    ensures Increasing(a)
  {
    assert forall i :: 0 <= i < |a| ==> (a + b)[i] == a[i];
  }

  /** A request that waits for a value which its fence has got does not wait. */
  lemma {:induction false} NotWaitingNow(fences: Store, asked: seq<Ask>, done: Signals, pending: Signals,
                                         bound: FenceId, r: RequestId, k: nat)
    requires StoreOk(fences, done, pending, bound) && 0 <= r < |asked| && k < |done|
    requires asked[r].fence == Real(done[k].value.fence) && asked[r].value <= done[k].value.value
    requires asked[r].fence.id in fences ==> AllBelong(fences[asked[r].fence.id].requests, asked[r].fence.id, asked)
    ensures Waits(fences, asked[r], r) == 0
  {
    var f := asked[r].fence.id;
    if f in fences {
      assert Kept(fences, f, done, pending);
      PrefixIncreasing(ValuesOf(done, f), ValuesOf(pending, f));
      AppliedBelowLast(done, k);
      forall i | 0 <= i < |fences[f].requests| ensures fences[f].requests[i].value != r {
        assert Belongs(fences[f].requests[i], f, asked);
      }
      CountNone(fences[f].requests, r);
    }
  }

  /** Requests are untouched by what leaves them in their fences. */
  lemma {:induction false} SameRequests(fences: Store, fences': Store, asked: seq<Ask>, log: seq<Callback>,
                                        done: Signals)
    requires RequestsOk(fences, asked, log, done)
    requires forall f :: f in fences' ==> fences'[f].requests == if f in fences then fences[f].requests else []
    requires forall f :: f in fences && f !in fences' ==> fences[f].requests == []
    ensures RequestsOk(fences', asked, log, done)
  {
    forall r | 0 <= r < |asked| ensures Calls(log, r) + Waits(fences', asked[r], r) == 1 {
      assert Calls(log, r) + Waits(fences, asked[r], r) == 1;
    }
    forall f | f in fences' ensures Waiting(fences'[f].requests, f, asked) {
      if f in fences { assert Waiting(fences[f].requests, f, asked); }
    }
  }

  lemma {:induction false} SignalRequests(fences: Store, f: FenceId, value: nat, asked: seq<Ask>, log: seq<Callback>,
                                          done: Signals)
    requires RequestsOk(fences, asked, log, done) && f in fences
    ensures RequestsOk(Signaled(fences, f, value), asked, log, done)
  {
    SameRequests(fences, Signaled(fences, f, value), asked, log, done);
  }

  lemma {:induction false} Unasked(fences: Store, asked: seq<Ask>, log: seq<Callback>, done: Signals)
    requires RequestsOk(fences, asked, log, done)
    ensures Calls(log, |asked|) == 0 && forall f :: f in fences ==> Count(fences[f].requests, |asked|) == 0
  {
    forall i | 0 <= i < |log| ensures log[i].request != |asked| { assert CallbackOk(log[i], asked, done); }
    CallsNone(log, |asked|);
    forall f | f in fences ensures Count(fences[f].requests, |asked|) == 0 {
      assert Waiting(fences[f].requests, f, asked);
      CountNone(fences[f].requests, |asked|);
    }
  }

  lemma {:induction false} AskedStays(asked: seq<Ask>, ask: Ask, log: seq<Callback>, done: Signals)
    requires CallbacksOk(log, asked, done)
    ensures CallbacksOk(log, asked + [ask], done)
  {
    forall i | 0 <= i < |log| ensures CallbackOk(log[i], asked + [ask], done) {
      assert CallbackOk(log[i], asked, done);
    }
  }

  /** A request that is answered at once. */
  lemma {:induction false} AnswerStep(fences: Store, asked: seq<Ask>, log: seq<Callback>, done: Signals, ask: Ask,
                                      status: Status)
    requires RequestsOk(fences, asked, log, done) && CallbackOk(Callback(|asked|, status), asked + [ask], done)
    ensures RequestsOk(fences, asked + [ask], log + [Callback(|asked|, status)], done)
  {
    var asked', log' := asked + [ask], log + [Callback(|asked|, status)];
    Unasked(fences, asked, log, done);
    AskedStays(asked, ask, log, done);
    forall r | 0 <= r < |asked'| ensures Calls(log', r) + Waits(fences, asked'[r], r) == 1 {
      CallsAppend(log, Callback(|asked|, status), r);
      assert r < |asked| ==> Calls(log, r) + Waits(fences, asked[r], r) == 1;
    }
    forall f | f in fences ensures Waiting(fences[f].requests, f, asked') {
      assert Waiting(fences[f].requests, f, asked);
    }
  }

  /** A request that waits for its value. */
  lemma {:induction false} WaitStep(fences: Store, asked: seq<Ask>, log: seq<Callback>, done: Signals, f: FenceId,
                                    value: nat)
    requires RequestsOk(fences, asked, log, done) && f in fences
    ensures RequestsOk(Awaiting(fences, f, Item(value, |asked|)), asked + [Ask(Real(f), value)], log, done)
  {
    var fences' := Awaiting(fences, f, Item(value, |asked|));
    Unasked(fences, asked, log, done);
    AskedStays(asked, Ask(Real(f), value), log, done);
    WaitsOnce(fences, asked, log, f, value);
    forall g | g in fences' ensures Waiting(fences'[g].requests, g, asked + [Ask(Real(f), value)]) {
      assert Waiting(fences[g].requests, g, asked);
    }
  }

  lemma {:induction false} WaitsOnce(fences: Store, asked: seq<Ask>, log: seq<Callback>, f: FenceId, value: nat)
    requires EachOnce(fences, asked, log) && f in fences && Calls(log, |asked|) == 0
    requires Count(fences[f].requests, |asked|) == 0
    ensures EachOnce(Awaiting(fences, f, Item(value, |asked|)), asked + [Ask(Real(f), value)], log)
  {
    var asked' := asked + [Ask(Real(f), value)];
    var fences' := Awaiting(fences, f, Item(value, |asked|));
    forall r | 0 <= r < |asked'| ensures Calls(log, r) + Waits(fences', asked'[r], r) == 1 {
      if r < |asked| {
        assert Calls(log, r) + Waits(fences, asked[r], r) == 1;
        assert asked'[r] == asked[r];
      }
      WaitsAfter(fences, asked'[r], f, Item(value, |asked|), r);
    }
  }

  lemma {:induction false} WaitsAfter(fences: Store, ask: Ask, f: FenceId, x: Item<RequestId>, r: RequestId)
    requires f in fences
    ensures Waits(Awaiting(fences, f, x), ask, r)
      == Waits(fences, ask, r) + if ask.fence == Real(f) && x.value == r then 1 else 0
  {
    var y := fences[f].(requests := fences[f].requests + [x]);
    if ask.fence == Real(f) {
      CountAppend(fences[f].requests, x, r);
      assert Waits(fences[f := y], ask, r) == Count(y.requests, r);
    } else {
      assert Waits(fences[f := y], ask, r) == Waits(fences, ask, r);
    }
  }

  lemma {:induction false} WaitKept(fences: Store, done: Signals, inFlight: Signals, bound: FenceId, f: FenceId,
                                    x: Item<RequestId>)
    requires StoreOk(fences, done, inFlight, bound)
    requires f in fences && fences[f].completed < x.serial <= fences[f].signaled
    ensures StoreOk(Awaiting(fences, f, x), done, inFlight, bound)
  {
    var fences' := Awaiting(fences, f, x);
    forall g | g in fences' ensures Kept(fences', g, done, inFlight) {
      assert Kept(fences, g, done, inFlight);
    }
    assert fences'.Keys == fences.Keys;
  }

  lemma {:induction false} QueueGrows(inFlight: Signals, x: Item<FenceInFlight>, last: Serial)
    requires Sorted(inFlight) && Between(inFlight, 0, last) && x.serial == last
    ensures Sorted(inFlight + [x]) && Between(inFlight + [x], 0, last)
  {
    SortedAppend(inFlight, x);
  }

  /** Serials, the tracker and the fences of one device with its one queue. */
  class Timeline {
    var alive: bool
    var lastSubmitted: Serial
    var completed: Serial
    var fences: Store
    /** mFencesInFlight. */
    var inFlight: Signals
    var nextFence: FenceId
    var nextRequest: RequestId

    /** The references that the application holds. */
    ghost var extern: map<FenceId, nat>
    /** The signals that were applied, the initial values among them. */
    ghost var done: Signals
    /** The calls of OnCompletion, and the calls back. */
    ghost var asked: seq<Ask>
    ghost var log: seq<Callback>

    ghost predicate SerialsOk()
      reads this
    {
      && nextRequest == |asked| && (!alive ==> completed == lastSubmitted)
      && completed <= lastSubmitted && Sorted(inFlight) && Between(inFlight, 0, lastSubmitted)
      && Between(done, 0, completed)
    }

    /** The fences are in order, with the signals in `pending` still to be applied. */
    ghost predicate FencesOk(pending: Signals)
      reads this
    {
      StoreOk(fences, done, pending, nextFence) && RequestsOk(fences, asked, log, done)
    }

    ghost predicate Valid()
      reads this
    {
      SerialsOk() && FencesOk(inFlight) && RefsOk(fences, inFlight, extern, NONE, nextFence)
    }

    /** What a request is told when its value is reached. */
    function Outcome(): (status: Status)
      reads this
    {
      if alive then Success else DeviceLost
    }

    constructor ()
      ensures Valid() && alive && fences == map[] && inFlight == [] && asked == [] && log == [] && extern == map[]
      ensures lastSubmitted == completed == 0
    {
      alive, lastSubmitted, completed, fences, inFlight, nextFence, nextRequest := true, 0, 0, map[], [], 0, 0;
      extern, done, asked, log := map[], [], [], [];
    }

    /** QueueBase::CreateFence. */
    method CreateFence(initial: nat) returns (fence: Handle)
      requires Valid()
      modifies this`fences, this`nextFence, this`done, this`extern
      ensures Valid() && fence == if alive then Real(old(nextFence)) else ErrorFence
      ensures fence.Real? ==>
        && fence.id !in old(fences) && fences == old(fences)[fence.id := Fence(1, initial, initial, [])]
        && extern == old(extern)[fence.id := 1]
      ensures fence.ErrorFence? ==> fences == old(fences) && extern == old(extern)
    {
      if !alive {
        return ErrorFence;
      }
      fence := Real(nextFence);
      AddFence(initial);
    }

    method AddFence(initial: nat)
      requires Valid()
      modifies this`fences, this`nextFence, this`done, this`extern
      ensures Valid() && nextFence == old(nextFence) + 1 && old(nextFence) !in old(fences)
      ensures fences == old(fences)[old(nextFence) := Fence(1, initial, initial, [])]
      ensures extern == old(extern)[old(nextFence) := 1]
    {
      var n := nextFence;
      CreateStep(fences, done, inFlight, n, initial);
      CreateRef(fences, n, initial, inFlight, extern);
      NewRequests(fences, n, initial, asked, log, done);
      assert Between(done + [Item(0, FenceInFlight(n, initial))], 0, completed);
      fences := fences[n := Fence(1, initial, initial, [])];
      extern := extern[n := 1];
      done := done + [Item(0, FenceInFlight(n, initial))];
      nextFence := n + 1;
    }

    /** QueueBase::Submit: the back end takes the commands, or not. */
    method Submit(accepted: bool)
      requires Valid()
      modifies this`lastSubmitted
      ensures Valid() && lastSubmitted == old(lastSubmitted) + if alive && accepted then 1 else 0
    {
      if alive && accepted {
        lastSubmitted := lastSubmitted + 1;
      }
    }

    /** QueueBase::Signal; `sameQueue` says whether the fence was created on this queue. */
    method Signal(fence: Handle, value: nat, sameQueue: bool) returns (ok: bool)
      requires Valid() && (fence.Real? ==> fence.id in fences)
      modifies this`fences, this`inFlight
      ensures Valid()
      ensures ok <==> alive && fence.Real? && sameQueue && value > old(fences)[fence.id].signaled
      ensures ok ==>
        && inFlight == old(inFlight) + [Item(lastSubmitted, FenceInFlight(fence.id, value))]
        && fences == Signaled(old(fences), fence.id, value)
      ensures !ok ==> fences == old(fences) && inFlight == old(inFlight)
    {
      ok := alive && fence.Real? && sameQueue && value > fences[fence.id].signaled;
      if ok {
        SetSignaledValue(fence.id, value);
      }
    }

    /** Fence::SetSignaledValue and UpdateFenceOnComplete. */
    method SetSignaledValue(f: FenceId, value: nat)
      requires Valid() && f in fences && value > fences[f].signaled
      modifies this`fences, this`inFlight
      ensures Valid() && inFlight == old(inFlight) + [Item(lastSubmitted, FenceInFlight(f, value))]
      ensures fences == Signaled(old(fences), f, value)
    {
      var x := Item(lastSubmitted, FenceInFlight(f, value));
      SignalStep(fences, done, inFlight, nextFence, x);
      SignalRef(fences, f, value, inFlight, x, extern, nextFence);
      SignalRequests(fences, f, value, asked, log, done);
      QueueGrows(inFlight, x, lastSubmitted);
      fences := Signaled(fences, f, value);
      inFlight := inFlight + [x];
    }

    /** Fence::OnCompletion. */
    method OnCompletion(fence: Handle, value: nat)
      requires Valid() && (fence.Real? ==> fence.id in fences)
      modifies this`fences, this`nextRequest, this`asked, this`log
      ensures Valid() && asked == old(asked) + [Ask(fence, value)]
      ensures var waits := alive && fence.Real?
          && old(fences)[fence.id].completed < value <= old(fences)[fence.id].signaled;
        && (!waits ==> fences == old(fences))
        && (waits ==> log == old(log) && fences == Awaiting(old(fences), fence.id, Item(value, |old(asked)|)))
      ensures !alive ==> log == old(log) + [Callback(|old(asked)|, DeviceLost)]
      ensures alive && (fence.ErrorFence? || value > old(fences)[fence.id].signaled) ==>
        log == old(log) + [Callback(|old(asked)|, Error)]
      ensures alive && fence.Real? && value <= old(fences)[fence.id].completed ==>
        log == old(log) + [Callback(|old(asked)|, Success)]
    {
      if fence.Real? {
        assert Kept(fences, fence.id, done, inFlight);
        InFlightValues(fences[fence.id], fence.id, done, inFlight);
      }
      if alive && fence.Real? && fences[fence.id].completed < value <= fences[fence.id].signaled {
        Wait(fence.id, value);
      } else {
        ghost var tooLarge := fence.ErrorFence? || value > fences[fence.id].signaled;
        Answer(Ask(fence, value), if !alive then DeviceLost else if tooLarge then Error else Success);
      }
    }

    method Wait(f: FenceId, value: nat)
      requires Valid() && f in fences && fences[f].completed < value <= fences[f].signaled
      modifies this`fences, this`nextRequest, this`asked
      ensures Valid() && asked == old(asked) + [Ask(Real(f), value)]
      ensures fences == Awaiting(old(fences), f, Item(value, |old(asked)|))
    {
      var request := Item(value, nextRequest);
      WaitKept(fences, done, inFlight, nextFence, f, request);
      WaitStep(fences, asked, log, done, f, value);
      SameRefs(fences, Awaiting(fences, f, request), inFlight, extern, NONE, nextFence);
      fences := Awaiting(fences, f, request);
      asked := asked + [Ask(Real(f), value)];
      nextRequest := nextRequest + 1;
    }

    method Answer(ghost ask: Ask, ghost status: Status)
      requires Valid() && CallbackOk(Callback(|asked|, status), asked + [ask], done)
      modifies this`nextRequest, this`asked, this`log
      ensures Valid() && asked == old(asked) + [ask] && log == old(log) + [Callback(|old(asked)|, status)]
    {
      AnswerStep(fences, asked, log, done, ask, status);
      asked, log := asked + [ask], log + [Callback(|asked|, status)];
      nextRequest := nextRequest + 1;
    }

    /** Fence::SetCompletedValue for the oldest signal still pending. */
    method SetCompletedValue(f: FenceId, value: nat, ghost pending: Signals)
      requires FencesOk(pending) && pending != [] && pending[0].value == FenceInFlight(f, value)
      modifies this`fences, this`done, this`log
      ensures FencesOk(pending[1..]) && done == old(done) + [pending[0]] && f in old(fences)
      ensures fences == old(fences)[f := AfterCompleted(old(fences)[f], value)]
      ensures log == old(log)
        + Fire(InOrder(UpTo(old(fences)[f].requests, value)), if alive then Success else DeviceLost)
    {
      CompleteStep(fences, done, pending, nextFence);
      // The asserts of the source.
      assert value <= fences[f].signaled;
      assert value > fences[f].completed;
      assert Kept(fences, f, done, pending);
      FireStep(fences, f, value, asked, log, done, pending[0], Outcome());
      log := log + Fire(InOrder(UpTo(fences[f].requests, value)), Outcome());
      fences := fences[f := AfterCompleted(fences[f], value)];
      done := done + [pending[0]];
    }

    /** Drop one reference; the last one destroys the fence, which answers what waits with Unknown. */
    method Release(f: FenceId, ghost pending: Signals, ghost held: Signals)
      requires FencesOk(pending) && RefsOk(fences, held, extern, f, nextFence) && f in fences
      requires forall i :: 0 <= i < |pending| ==> ValuesOf(held, pending[i].value.fence) != []
      modifies this`fences, this`log
      ensures FencesOk(pending) && RefsOk(fences, held, extern, NONE, nextFence) && log == old(log)
      ensures fences.Keys == old(fences).Keys - if Uses(f, held, extern, NONE) > 0 then {} else {f}
      ensures forall g :: g in fences ==> SameButRefs(fences[g], old(fences)[g])
    {
      assert RefOk(fences, f, held, extern, f);
      DropRef(fences, f, held, extern, nextFence);
      if fences[f].refs > 1 {
        Unreference(f, pending);
      } else {
        Destroy(f, pending);
      }
    }

    method Unreference(f: FenceId, ghost pending: Signals)
      requires FencesOk(pending) && f in fences && fences[f].refs > 1
      modifies this`fences
      ensures FencesOk(pending) && fences == old(fences)[f := old(fences)[f].(refs := old(fences)[f].refs - 1)]
    {
      var x := fences[f];
      SameValues(fences, fences[f := x.(refs := x.refs - 1)], done, pending, nextFence);
      SameRequests(fences, fences[f := x.(refs := x.refs - 1)], asked, log, done);
      fences := fences[f := x.(refs := x.refs - 1)];
    }

    /** The destructor of a fence. */
    method Destroy(f: FenceId, ghost pending: Signals)
      requires FencesOk(pending) && f in fences && forall i :: 0 <= i < |pending| ==> pending[i].value.fence != f
      modifies this`fences, this`log
      ensures FencesOk(pending) && fences == old(fences) - {f} && log == old(log)
    {
      NoValuesOf(pending, f);
      DestroyStep(fences, f, done, pending, nextFence);
      SameRequests(fences, fences - {f}, asked, log, done);
      assert Fire(InOrder(fences[f].requests), Unknown) == [];
      log := log + Fire(InOrder(fences[f].requests), Unknown);
      assert log == old(log);
      fences := fences - {f};
    }

    /** The application drops a reference that it holds. */
    method ReleaseByApplication(f: FenceId)
      requires Valid() && f in fences && Held(extern, f) > 0
      modifies this`fences, this`log, this`extern
      ensures Valid() && log == old(log) && extern == old(extern)[f := Held(old(extern), f) - 1]
      ensures f in fences <==> Uses(f, inFlight, extern, NONE) > 0
      ensures forall g :: g in old(fences) && g != f ==> g in fences
      ensures forall g :: g in fences ==> g in old(fences) && SameButRefs(fences[g], old(fences)[g])
    {
      GiveUpRef(fences, f, inFlight, extern, nextFence);
      extern := extern[f := Held(extern, f) - 1];
      forall i | 0 <= i < |inFlight|
        ensures ValuesOf(inFlight, inFlight[i].value.fence) != []
      {
        SomeValuesOf(inFlight, i);
      }
      Release(f, inFlight, inFlight);
    }

    /** FenceSignalTracker::Tick: the signals whose serial has passed are applied, exactly the requests that
        they reach are called back, and nothing that the application holds goes. */
    method TrackerTick()
      requires Valid()
      modifies this`fences, this`inFlight, this`done, this`log
      ensures Valid() && inFlight == Beyond(old(inFlight), completed)
      ensures done == old(done) + UpTo(old(inFlight), completed)
      ensures log == old(log) + CallsFor(old(fences), UpTo(old(inFlight), completed), Outcome())
      ensures CallsOk(old(fences), UpTo(old(inFlight), completed), asked, log[|old(log)|..],
                      if alive then Success else DeviceLost)
      ensures forall f :: f in fences ==>
        f in old(fences) && SameButRefs(fences[f], AfterSignals(old(fences), UpTo(old(inFlight), completed))[f])
      ensures forall r :: Reached(old(fences), asked, UpTo(old(inFlight), completed), r) ==>
        Callback(r, if alive then Success else DeviceLost) in log
    {
      var due, rest := UpTo(inFlight, completed), Beyond(inFlight, completed);
      CutQueue(inFlight, completed, lastSubmitted);
      TickCalls(fences, asked, log, done, due, rest, nextFence, Outcome());
      ApplyDue(due, rest);
      inFlight := rest;
    }

    /** Apply the signals in `due`, and let the fences go. */
    method ApplyDue(due: Signals, ghost rest: Signals)
      requires inFlight == due + rest && FencesOk(inFlight) && RefsOk(fences, inFlight, extern, NONE, nextFence)
      modifies this`fences, this`done, this`log
      ensures FencesOk(rest) && RefsOk(fences, rest, extern, NONE, nextFence)
      ensures done == old(done) + due && log == old(log) + CallsFor(old(fences), due, Outcome())
      ensures forall f :: f in fences ==> f in old(fences) && SameButRefs(fences[f], AfterSignals(old(fences), due)[f])
      ensures forall r :: Reached(old(fences), asked, due, r) ==> Callback(r, Outcome()) in log
    {
      CompleteDue(due, rest);
      DropDue(due, rest);
      AllReachedAnswered(old(fences), fences, asked, old(log), CallsFor(old(fences), due, Outcome()), old(done), due,
        rest, nextFence, Outcome());
    }

    method CompleteDue(due: Signals, ghost rest: Signals)
      requires FencesOk(due + rest) && RefsOk(fences, inFlight, extern, NONE, nextFence)
      modifies this`fences, this`done, this`log
      ensures FencesOk(rest) && RefsOk(fences, inFlight, extern, NONE, nextFence) && done == old(done) + due
      ensures fences == AfterSignals(old(fences), due) && log == old(log) + CallsFor(old(fences), due, Outcome())
    {
      assert due[0..] == due;
      for i := 0 to |due|
        invariant FencesOk(due[i..] + rest) && RefsOk(fences, inFlight, extern, NONE, nextFence)
        invariant done == old(done) + due[..i] && fences == AfterSignals(old(fences), due[..i])
        invariant log == old(log) + CallsFor(old(fences), due[..i], Outcome())
      {
        NextOf(due, rest, i);
        ghost var before := fences;
        SetCompletedValue(due[i].value.fence, due[i].value.value, due[i..] + rest);
        SameRefs(before, fences, inFlight, extern, NONE, nextFence);
        AfterOneMore(old(fences), due, i, old(log), Outcome());
      }
      assert due[|due|..] + rest == rest && due[..|due|] == due;
    }

    method DropDue(due: Signals, ghost rest: Signals)
      requires FencesOk(rest) && RefsOk(fences, due + rest, extern, NONE, nextFence)
      modifies this`fences, this`log
      ensures FencesOk(rest) && RefsOk(fences, rest, extern, NONE, nextFence) && log == old(log)
      ensures forall f :: f in fences ==> f in old(fences) && SameButRefs(fences[f], old(fences)[f])
    {
      assert due[0..] == due;
      for i := 0 to |due|
        invariant FencesOk(rest) && RefsOk(fences, due[i..] + rest, extern, NONE, nextFence) && log == old(log)
        invariant forall f :: f in fences ==> f in old(fences) && SameButRefs(fences[f], old(fences)[f])
      {
        NextOf(due, rest, i);
        DropHead(due[i].value.fence, due[i..] + rest, rest);
      }
      assert due[|due|..] + rest == rest;
    }

    /** ClearUpTo lets go of the fence at the head of the queue. */
    method DropHead(f: FenceId, ghost held: Signals, ghost rest: Signals)
      requires FencesOk(rest) && RefsOk(fences, held, extern, NONE, nextFence) && held != [] && f == held[0].value.fence
      requires |rest| < |held| && rest == held[|held| - |rest|..]
      modifies this`fences, this`log
      ensures FencesOk(rest) && RefsOk(fences, held[1..], extern, NONE, nextFence) && log == old(log)
      ensures forall g :: g in fences ==> g in old(fences) && SameButRefs(fences[g], old(fences)[g])
    {
      ForgetRef(fences, held, extern, nextFence);
      ghost var held' := held[1..];
      forall i | 0 <= i < |rest| ensures ValuesOf(held', rest[i].value.fence) != [] {
        assert rest[i] == held'[|held'| - |rest| + i];
        SomeValuesOf(held', |held'| - |rest| + i);
      }
      Release(f, rest, held');
    }

    /** DeviceBase::Tick; the back end finds that the GPU has come as far as `reached`. */
    method Tick(reached: Serial)
      requires Valid() && reached <= lastSubmitted && (completed <= reached || reached == 0)
      modifies this`completed, this`fences, this`inFlight, this`done, this`log
      ensures Valid() && completed == if alive && reached > old(completed) then reached else old(completed)
      ensures alive ==>
        && inFlight == Beyond(old(inFlight), completed) && done == old(done) + UpTo(old(inFlight), completed)
        && log == old(log) + CallsFor(old(fences), UpTo(old(inFlight), completed), Success)
        && CallsOk(old(fences), UpTo(old(inFlight), completed), asked, log[|old(log)|..], Success)
        && (forall f :: f in fences ==>
          f in old(fences) && SameButRefs(fences[f], AfterSignals(old(fences), UpTo(old(inFlight), completed))[f]))
        && forall r :: Reached(old(fences), asked, UpTo(old(inFlight), completed), r) ==> Callback(r, Success) in log
      ensures !alive ==> fences == old(fences) && inFlight == old(inFlight) && log == old(log)
    {
      if alive {
        if reached > completed {
          completed := reached;
        }
        TrackerTick();
      }
    }

    /** An internal error: the back end waits for the GPU, perhaps with one more serial. */
    method LoseDevice(extra: bool)
      requires Valid()
      modifies this`alive, this`lastSubmitted, this`completed
      ensures Valid() && !alive && completed == lastSubmitted == old(lastSubmitted) + if extra then 1 else 0
    {
      alive := false;
      if extra {
        lastSubmitted := lastSubmitted + 1;
      }
      completed := lastSubmitted;
    }

    method WaitForIdle()
      requires Valid()
      modifies this`completed
      ensures Valid() && completed == lastSubmitted
    {
      completed := lastSubmitted;
    }

    /** The part of ShutDownBase that ticks the tracker and frees it: the assert of its destructor holds,
        and every request there ever was has had its one callback. */
    method ShutDown()
      requires Valid()
      modifies this`alive, this`completed, this`fences, this`inFlight, this`done, this`log
      ensures Valid() && !alive && inFlight == [] && AllCalledOnce(|asked|, log)
      ensures old(log) <= log
      ensures CallsOk(old(fences), old(inFlight), asked, log[|old(log)|..], if old(alive) then Success else DeviceLost)
    {
      if alive {
        WaitForIdle();
      }
      AllUpTo(inFlight, completed);
      TrackerTick();
      AllAnswered(fences, asked, log, done, nextFence);
      alive := false;
    }
  }

  predicate SameButRefs(x: Fence, y: Fence) {
    x == y.(refs := x.refs)
  }

  lemma {:induction false} AfterOneMore(fences: Store, due: Signals, i: nat, log: seq<Callback>, status: Status)
    requires i < |due| && due[i].value.fence in AfterSignals(fences, due[..i])
    ensures var now := AfterSignals(fences, due[..i]);
      var FenceInFlight(f, v) := due[i].value;
      && AfterSignals(fences, due[..i + 1]) == now[f := AfterCompleted(now[f], v)]
      && (log + CallsFor(fences, due[..i], status)) + Fire(InOrder(UpTo(now[f].requests, v)), status) ==
        log + CallsFor(fences, due[..i + 1], status)
  {
    assert due[..i + 1][..i] == due[..i];
  }

  lemma {:induction false} NewRequests(fences: Store, n: FenceId, initial: nat, asked: seq<Ask>, log: seq<Callback>,
                                       done: Signals)
    requires RequestsOk(fences, asked, log, done) && n !in fences && ValuesOf(done, n) == []
    ensures RequestsOk(fences[n := Fence(1, initial, initial, [])], asked, log,
      done + [Item(0, FenceInFlight(n, initial))])
  {
    var x := Item(0, FenceInFlight(n, initial));
    CallbacksStay(asked, log, done, x);
    assert RequestsOk(fences, asked, log, done + [x]);
    SameRequests(fences, fences[n := Fence(1, initial, initial, [])], asked, log, done + [x]);
  }

  /** Whoever waited for a value that has been reached is among those called back. */
  lemma {:induction false} AllReachedAnswered(fences: Store, fences': Store, asked: seq<Ask>, log: seq<Callback>,
                                              calls: seq<Callback>, done: Signals, due: Signals, rest: Signals,
                                              bound: FenceId, status: Status)
    requires EachOnce(fences, asked, log) && calls == CallsFor(fences, due, status)
    requires StoreOk(fences', done + due, rest, bound) && RequestsOk(fences', asked, log + calls, done + due)
    ensures forall r :: Reached(fences, asked, due, r) ==> Callback(r, status) in log + calls
  {
    CallsForStatus(fences, due, status);
    forall r | Reached(fences, asked, due, r) ensures Callback(r, status) in log + calls {
      var i :| 0 <= i < |due| && due[i].value.fence == asked[r].fence.id && due[i].value.value >= asked[r].value;
      assert (done + due)[|done| + i] == due[i];
      NotWaitingNow(fences', asked, done + due, rest, bound, r, |done| + i);
      assert Calls(log, r) + Waits(fences, asked[r], r) == 1
        && Calls(log + calls, r) + Waits(fences', asked[r], r) == 1;
      var k := NewCall(log, calls, r);
      assert calls[k] == Callback(r, status);
    }
  }

  lemma {:induction false} AllAnswered(fences: Store, asked: seq<Ask>, log: seq<Callback>, done: Signals,
                                       bound: FenceId)
    requires StoreOk(fences, done, [], bound) && RequestsOk(fences, asked, log, done)
    ensures AllCalledOnce(|asked|, log)
  {
    forall r | 0 <= r < |asked| ensures Calls(log, r) == 1 {
      assert Calls(log, r) + Waits(fences, asked[r], r) == 1;
      if asked[r].fence.Real? && asked[r].fence.id in fences {
        var f := asked[r].fence.id;
        assert Kept(fences, f, done, []);
        NothingWaits(fences[f], f, done, []);
      }
    }
  }

  /** In any valid state, whoever asked a fence that is gone has been called back exactly once, and
      success was reported only if the GPU had passed a signal of at least that value. */
  lemma {:induction false} AnsweredByDestruction(t: Timeline, r: RequestId)
    requires t.Valid() && 0 <= r < |t.asked|
    ensures t.asked[r].fence.ErrorFence? || t.asked[r].fence.id !in t.fences ==> Calls(t.log, r) == 1
    ensures Calls(t.log, r) <= 1
    ensures Callback(r, Success) in t.log ==>
      && t.asked[r].fence.Real?
      && exists x ::
        && x in t.done && x.serial <= t.completed
        && x.value.fence == t.asked[r].fence.id && x.value.value >= t.asked[r].value
  {
    assert Calls(t.log, r) + Waits(t.fences, t.asked[r], r) == 1;
    if Callback(r, Success) in t.log {
      var i :| 0 <= i < |t.log| && t.log[i] == Callback(r, Success);
      assert CallbackOk(t.log[i], t.asked, t.done);
      var x := LastApplied(t.done, t.asked[r].fence.id);
      assert x in t.done;
    }
  }

  /** The signal that a fence's value comes from. */
  ghost function LastApplied(items: Signals, f: FenceId): (x: Item<FenceInFlight>)
    requires ValuesOf(items, f) != []
    ensures x in items && x.value == FenceInFlight(f, Last(ValuesOf(items, f)))
  {
    var n := |items| - 1;
    if items[n].value.fence == f then items[n] else LastApplied(items[..n], f)
  }
}
