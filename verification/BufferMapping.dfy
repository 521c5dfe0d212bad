/** Mapping buffers on the serial timeline: src/dawn_native/Buffer.cpp, MapRequestTracker.cpp and the
    shutdown of Device.cpp. A buffer pointer is a key of a store, the tracker's SerialQueue is the log
    of what is enqueued in it, and what back ends answer is a parameter. */
module BufferMapping {
  import opened Wrappers
  import opened SerialStorage
  import opened Callbacks
  import opened References

  type BufferId = int
  datatype BufferState = Unmapped | Mapped | Destroyed

  /** `maps` counts the map requests; mMapSerial is that number in 32 bits. `read` and `write` are the
      callbacks, and `staging` says whether there is a staging buffer. */
  datatype Buffer = Buffer(refs: nat, mapRead: bool, mapWrite: bool, state: BufferState, maps: nat,
                           read: Option<RequestId>, write: Option<RequestId>, staging: bool)
  type Store = map<BufferId, Buffer>

  /** What the tracker holds: the number of the map request, which it knows in 32 bits. */
  datatype Request = Request(buffer: BufferId, ordinal: nat, isWrite: bool)

  type Queue = seq<Item<Request>>

  datatype Handle = ErrorBuffer | Real(id: BufferId)
  /** One call of MapReadAsync or MapWriteAsync; `ready` is the serial that it waits for. */
  datatype Ask = Ask(buffer: Handle, isWrite: bool, ready: Serial)

  function MapSerial(n: nat): (r: nat) {
    n % 0x1_0000_0000
  }

  function Slot(x: Buffer): (r: Option<RequestId>) {
    if x.read.Some? then x.read else x.write
  }

  /** Whether CallMapReadCallback or CallMapWriteCallback finds a callback with this serial. */
  predicate Fires(x: Buffer, ordinal: nat, isWrite: bool) {
    (if isWrite then x.write.Some? else x.read.Some?) && MapSerial(ordinal) == MapSerial(x.maps)
  }

  function Cleared(x: Buffer): (r: Buffer) {
    Buffer(x.refs, x.mapRead, x.mapWrite, x.state, x.maps, None, None, x.staging)
  }

  /** An old request passes for the current one exactly when their distance is a multiple of 2^32. */
  lemma {:induction false} MistakenExactly(x: Buffer, ordinal: nat)
    requires ordinal <= x.maps
    ensures MapSerial(ordinal) == MapSerial(x.maps) <==> (x.maps - ordinal) % 0x1_0000_0000 == 0
    ensures x.maps < 0x1_0000_0000 ==> (MapSerial(ordinal) == MapSerial(x.maps) <==> ordinal == x.maps)
  {
  }

  // The queue.

  function CountOf(items: Queue, b: BufferId): (n: nat) {
    if items == [] then 0 else CountOf(items[..|items| - 1], b) + if items[|items| - 1].value.buffer == b then 1 else 0
  }

  lemma {:induction false} CountOfAppend(items: Queue, x: Item<Request>, b: BufferId)
    ensures CountOf(items + [x], b) == CountOf(items, b) + if x.value.buffer == b then 1 else 0
  {
    assert (items + [x])[..|items|] == items;
  }

  lemma {:induction false} CountOfHead(items: Queue, b: BufferId)
    requires items != []
    ensures CountOf(items, b) == CountOf(items[1..], b) + if items[0].value.buffer == b then 1 else 0
  {
    var n := |items| - 1;
    if n > 0 {
      CountOfHead(items[..n], b);
      assert items[..n][1..] == items[1..][..n - 1];
    }
  }

  lemma {:induction false} CountOfNone(items: Queue, b: BufferId)
    requires forall i :: 0 <= i < |items| ==> items[i].value.buffer != b
    ensures CountOf(items, b) == 0
  {
    if items != [] { CountOfNone(items[..|items| - 1], b); }
  }

  lemma {:induction false} CountOfSome(items: Queue, k: nat)
    requires k < |items|
    ensures CountOf(items, items[k].value.buffer) > 0
  {
    if k < |items| - 1 { CountOfSome(items[..|items| - 1], k); }
  }

  predicate AllIn(items: Queue, ids: set<BufferId>) {
    forall i :: 0 <= i < |items| ==> items[i].value.buffer in ids
  }

  predicate EntryOk(x: Item<Request>, buffers: Store) {
    x.value.buffer in buffers && x.value.ordinal <= buffers[x.value.buffer].maps
  }

  /** The requests of one buffer are in the queue in the order they were made. */
  predicate InTurn(items: Queue) {
    forall i, j :: 0 <= i < j < |items| && items[i].value.buffer == items[j].value.buffer ==>
      items[i].value.ordinal < items[j].value.ordinal
  }

  predicate QueueOk(items: Queue, buffers: Store) {
    InTurn(items) && forall i :: 0 <= i < |items| ==> EntryOk(items[i], buffers)
  }

  // The buffers.

  /** A callback that is set belongs to the current request, which is still to be finished. */
  ghost predicate SlotOk(x: Buffer, b: BufferId, asked: seq<Ask>, pending: Queue) {
    Slot(x).Some? ==>
      && 0 <= Slot(x).value < |asked| && asked[Slot(x).value].buffer == Real(b)
      && Item(asked[Slot(x).value].ready, Request(b, x.maps, x.write.Some?)) in pending
  }

  /** Back ends can write to a buffer with a map usage directly, so it has no staging buffer. */
  predicate FieldsOk(x: Buffer) {
    && !(x.read.Some? && x.write.Some?) && (x.state == Unmapped ==> Slot(x).None?)
    && (x.staging ==> !x.mapRead && !x.mapWrite && Slot(x).None?)
  }

  ghost predicate Kept(buffers: Store, b: BufferId, asked: seq<Ask>, pending: Queue) {
    b in buffers && SlotOk(buffers[b], b, asked, pending) && FieldsOk(buffers[b])
  }

  /** `pending` is still to be finished. */
  ghost predicate StoreOk(buffers: Store, asked: seq<Ask>, pending: Queue, bound: BufferId) {
    && 0 <= bound && InBounds(buffers.Keys, bound) && QueueOk(pending, buffers)
    && (forall b {:trigger Kept(buffers, b, asked, pending)} :: b in buffers ==> Kept(buffers, b, asked, pending))
  }

  /** Who refers to b: the application, the tracker for each of `held`, and `extra` if it is b. */
  function Uses(b: BufferId, held: Queue, extern: map<BufferId, nat>, extra: BufferId): (n: nat) {
    Held(extern, b) + CountOf(held, b) + if b == extra then 1 else 0
  }

  ghost predicate RefOk(buffers: Store, b: BufferId, held: Queue, extern: map<BufferId, nat>, extra: BufferId) {
    b in buffers && 0 < buffers[b].refs == Uses(b, held, extern, extra)
  }

  /** Buffers live exactly as long as they are referred to; `extra` is a reference about to be dropped. */
  ghost predicate RefsOk(buffers: Store, held: Queue, extern: map<BufferId, nat>, extra: BufferId, bound: BufferId) {
    && AllIn(held, buffers.Keys) && HeldLive(extern, buffers.Keys, bound) && (extra == NONE || extra in buffers)
    && (forall b {:trigger RefOk(buffers, b, held, extern, extra)} :: b in buffers ==>
      RefOk(buffers, b, held, extern, extra))
  }

  /** What the store says about the callbacks of one buffer. */
  lemma {:induction false} SlotFacts(buffers: Store, asked: seq<Ask>, pending: Queue, bound: BufferId, b: BufferId)
    requires StoreOk(buffers, asked, pending, bound) && b in buffers
    ensures FieldsOk(buffers[b])
    ensures Slot(buffers[b]).Some? ==>
      0 <= Slot(buffers[b]).value < |asked| && asked[Slot(buffers[b]).value].buffer == Real(b)
  {
    assert Kept(buffers, b, asked, pending);
  }

  // The requests.

  function Waits(buffers: Store, ask: Ask, r: RequestId): (n: nat) {
    if ask.buffer.Real? && ask.buffer.id in buffers && Slot(buffers[ask.buffer.id]) == Some(r) then 1 else 0
  }

  /** Every request waits or was called back, and not both. */
  ghost predicate EachOnce(buffers: Store, asked: seq<Ask>, log: seq<Callback>) {
    forall r {:trigger Calls(log, r)} :: 0 <= r < |asked| ==> Calls(log, r) + Waits(buffers, asked[r], r) == 1
  }

  /** Success is reported when the serial of the request has passed, unless its buffer has wrapped around. */
  ghost predicate CallbackOk(c: Callback, asked: seq<Ask>, completed: Serial, wrapped: set<BufferId>) {
    0 <= c.request < |asked| && (c.status == Success ==> SuccessOk(asked[c.request], completed, wrapped))
  }

  predicate SuccessOk(ask: Ask, completed: Serial, wrapped: set<BufferId>) {
    ask.buffer.Real? && (ask.ready <= completed || ask.buffer.id in wrapped)
  }

  predicate InRange(log: seq<Callback>, n: nat) {
    forall i :: 0 <= i < |log| ==> 0 <= log[i].request < n
  }

  ghost predicate LogOk(asked: seq<Ask>, log: seq<Callback>, completed: Serial, wrapped: set<BufferId>) {
    InRange(log, |asked|) && forall i :: 0 <= i < |log| ==> CallbackOk(log[i], asked, completed, wrapped)
  }

  /** A callback that was in order stays so as time goes on. */
  lemma {:induction false} LogStays(asked: seq<Ask>, more: seq<Ask>, log: seq<Callback>, completed: Serial,
                                    reached: Serial, wrapped: set<BufferId>, wrapped': set<BufferId>)
    requires LogOk(asked, log, completed, wrapped) && completed <= reached && wrapped <= wrapped'
    ensures LogOk(asked + more, log, reached, wrapped')
  {
    forall i | 0 <= i < |log| ensures CallbackOk(log[i], asked + more, reached, wrapped') {
      assert CallbackOk(log[i], asked, completed, wrapped);
    }
  }

  lemma {:induction false} LogGrows(asked: seq<Ask>, log: seq<Callback>, completed: Serial, wrapped: set<BufferId>,
                                    c: Callback)
    requires LogOk(asked, log, completed, wrapped) && CallbackOk(c, asked, completed, wrapped)
    ensures LogOk(asked, log + [c], completed, wrapped)
  {
  }

  /** The slot of b is emptied and its request called back. */
  lemma {:induction false} EmptySlot(buffers: Store, b: BufferId, x': Buffer, asked: seq<Ask>, log: seq<Callback>,
                                     status: Status)
    requires EachOnce(buffers, asked, log) && b in buffers && Slot(buffers[b]).Some? && Slot(x').None?
    requires 0 <= Slot(buffers[b]).value < |asked| && asked[Slot(buffers[b]).value].buffer == Real(b)
    ensures EachOnce(buffers[b := x'], asked, log + [Callback(Slot(buffers[b]).value, status)])
  {
    var c := Callback(Slot(buffers[b]).value, status);
    forall r | 0 <= r < |asked| ensures Calls(log + [c], r) + Waits(buffers[b := x'], asked[r], r) == 1 {
      assert Calls(log, r) + Waits(buffers, asked[r], r) == 1;
      CallsAppend(log, c, r);
    }
  }

  /** Where the slots stay, the requests stay. */
  lemma {:induction false} SameSlots(buffers: Store, buffers': Store, asked: seq<Ask>, log: seq<Callback>)
    requires EachOnce(buffers, asked, log)
    requires forall b :: b in buffers' ==> Slot(buffers'[b]) == if b in buffers then Slot(buffers[b]) else None
    requires forall b :: b in buffers && b !in buffers' ==> Slot(buffers[b]).None?
    ensures EachOnce(buffers', asked, log)
  {
    forall r | 0 <= r < |asked| ensures Calls(log, r) + Waits(buffers', asked[r], r) == 1 {
      assert Calls(log, r) + Waits(buffers, asked[r], r) == 1;
    }
  }

  lemma {:induction false} AnswerStep(buffers: Store, asked: seq<Ask>, log: seq<Callback>, ask: Ask, status: Status)
    requires EachOnce(buffers, asked, log) && InRange(log, |asked|)
    requires forall b :: b in buffers ==> Slot(buffers[b]) != Some(|asked|)
    ensures EachOnce(buffers, asked + [ask], log + [Callback(|asked|, status)])
  {
    var c := Callback(|asked|, status);
    CallsNone(log, |asked|);
    forall r | 0 <= r <= |asked| ensures Calls(log + [c], r) + Waits(buffers, (asked + [ask])[r], r) == 1 {
      CallsAppend(log, c, r);
      assert r < |asked| ==> Calls(log, r) + Waits(buffers, asked[r], r) == 1;
    }
  }

  lemma {:induction false} WaitStep(buffers: Store, asked: seq<Ask>, log: seq<Callback>, b: BufferId, x': Buffer,
                                    ask: Ask)
    requires EachOnce(buffers, asked, log) && InRange(log, |asked|)
    requires b in buffers && Slot(buffers[b]).None? && Slot(x') == Some(|asked|) && ask.buffer == Real(b)
    ensures EachOnce(buffers[b := x'], asked + [ask], log)
  {
    CallsNone(log, |asked|);
    forall r | 0 <= r <= |asked| ensures Calls(log, r) + Waits(buffers[b := x'], (asked + [ask])[r], r) == 1 {
      assert r < |asked| ==> Calls(log, r) + Waits(buffers, asked[r], r) == 1;
    }
  }

  // The steps, on the store.

  /** Changing one buffer without starting a request. */
  lemma {:induction false} ChangeStep(buffers: Store, asked: seq<Ask>, pending: Queue, bound: BufferId, b: BufferId,
                                      x': Buffer)
    requires StoreOk(buffers, asked, pending, bound) && b in buffers && x'.maps >= buffers[b].maps && FieldsOk(x')
    requires Slot(x').Some? ==>
      Slot(x') == Slot(buffers[b]) && x'.maps == buffers[b].maps && x'.write == buffers[b].write
    ensures StoreOk(buffers[b := x'], asked, pending, bound)
  {
    var buffers' := buffers[b := x'];
    assert buffers'.Keys == buffers.Keys;
    forall g | g in buffers' ensures Kept(buffers', g, asked, pending) { assert Kept(buffers, g, asked, pending); }
    forall i | 0 <= i < |pending| ensures EntryOk(pending[i], buffers') { assert EntryOk(pending[i], buffers); }
  }

  /** One more call that starts nothing. */
  lemma {:induction false} AskedStep(buffers: Store, asked: seq<Ask>, ask: Ask, pending: Queue, bound: BufferId)
    requires StoreOk(buffers, asked, pending, bound)
    ensures StoreOk(buffers, asked + [ask], pending, bound)
    ensures forall b :: b in buffers ==> Slot(buffers[b]) != Some(|asked|)
  {
    forall g | g in buffers ensures Kept(buffers, g, asked + [ask], pending) && Slot(buffers[g]) != Some(|asked|) {
      assert Kept(buffers, g, asked, pending);
    }
  }

  lemma {:induction false} QueueGrows(inFlight: Queue, buffers: Store, x: Item<Request>)
    requires QueueOk(inFlight, buffers) && x.value.buffer in buffers && x.value.ordinal > buffers[x.value.buffer].maps
    ensures InTurn(inFlight + [x])
  {
    forall i | 0 <= i < |inFlight| && inFlight[i].value.buffer == x.value.buffer
      ensures inFlight[i].value.ordinal < x.value.ordinal
    {
      assert EntryOk(inFlight[i], buffers);
    }
  }

  function StartMap(x: Buffer, r: RequestId, isWrite: bool, refs: nat): (x': Buffer)
    ensures x'.maps == x.maps + 1
  {
    Buffer(x.refs + refs, x.mapRead, x.mapWrite, Mapped, x.maps + 1,
           if isWrite then x.read else Some(r), if isWrite then Some(r) else x.write, x.staging)
  }

  /** Maps are validated: the buffer is unmapped and has the usage. */
  predicate Mappable(x: Buffer, isWrite: bool) {
    x.state == Unmapped && if isWrite then x.mapWrite else x.mapRead
  }

  /** A request starts and is tracked. */
  lemma {:induction false} TrackStep(buffers: Store, asked: seq<Ask>, inFlight: Queue, bound: BufferId, b: BufferId,
                                     isWrite: bool, ready: Serial)
    requires StoreOk(buffers, asked, inFlight, bound) && b in buffers && Mappable(buffers[b], isWrite)
    ensures var x' := StartMap(buffers[b], |asked|, isWrite, 1);
      var q := inFlight + [Item(ready, Request(b, x'.maps, isWrite))];
      StoreOk(buffers[b := x'], asked + [Ask(Real(b), isWrite, ready)], q, bound)
  {
    var x' := StartMap(buffers[b], |asked|, isWrite, 1);
    var e := Item(ready, Request(b, x'.maps, isWrite));
    var q, asked', buffers' := inFlight + [e], asked + [Ask(Real(b), isWrite, ready)], buffers[b := x'];
    assert buffers'.Keys == buffers.Keys;
    QueueGrows(inFlight, buffers, e);
    forall i | 0 <= i < |q| ensures EntryOk(q[i], buffers') { assert i < |inFlight| ==> EntryOk(inFlight[i], buffers); }
    forall g | g in buffers' ensures Kept(buffers', g, asked', q) {
      assert Kept(buffers, g, asked, inFlight);
      assert e in q;
    }
  }

  /** A request starts and is refused. */
  lemma {:induction false} RefusedStep(buffers: Store, asked: seq<Ask>, ask: Ask, inFlight: Queue, bound: BufferId,
                                       b: BufferId, isWrite: bool)
    requires StoreOk(buffers, asked, inFlight, bound) && b in buffers && Mappable(buffers[b], isWrite)
    ensures StoreOk(buffers[b := Cleared(StartMap(buffers[b], |asked|, isWrite, 0))], asked + [ask], inFlight, bound)
  {
    assert Kept(buffers, b, asked, inFlight);
    AskedStep(buffers, asked, ask, inFlight, bound);
    ChangeStep(buffers, asked + [ask], inFlight, bound, b, Cleared(StartMap(buffers[b], |asked|, isWrite, 0)));
  }

  function Finished(x: Buffer, e: Request): (x': Buffer) {
    if Fires(x, e.ordinal, e.isWrite) then Cleared(x) else x
  }

  /** Finishing the oldest request. */
  lemma {:induction false} FinishStep(buffers: Store, asked: seq<Ask>, pending: Queue, bound: BufferId)
    requires StoreOk(buffers, asked, pending, bound) && pending != []
    ensures var e := pending[0].value;
      e.buffer in buffers && StoreOk(buffers[e.buffer := Finished(buffers[e.buffer], e)], asked, pending[1..], bound)
  {
    var e := pending[0].value;
    assert EntryOk(pending[0], buffers);
    var buffers' := buffers[e.buffer := Finished(buffers[e.buffer], e)];
    assert buffers'.Keys == buffers.Keys && pending == [pending[0]] + pending[1..];
    forall g | g in buffers' ensures Kept(buffers', g, asked, pending[1..]) { assert Kept(buffers, g, asked, pending); }
    forall i | 0 <= i < |pending[1..]|
      ensures EntryOk(pending[1..][i], buffers')
    {
      assert EntryOk(pending[i + 1], buffers);
    }
  }

  /** Before any wrap-around, what fires is the request that was tracked. */
  lemma {:induction false} FiresOnTime(buffers: Store, asked: seq<Ask>, pending: Queue, bound: BufferId)
    requires StoreOk(buffers, asked, pending, bound) && pending != []
    requires var e := pending[0].value;
      e.buffer in buffers && buffers[e.buffer].maps < 0x1_0000_0000 && Fires(buffers[e.buffer], e.ordinal, e.isWrite)
    ensures var e := pending[0].value;
      var x := buffers[e.buffer];
      && e.ordinal == x.maps && Slot(x).Some? && 0 <= Slot(x).value < |asked|
      && asked[Slot(x).value].buffer == Real(e.buffer) && asked[Slot(x).value].ready == pending[0].serial
  {
    var e := pending[0].value;
    var x := buffers[e.buffer];
    assert EntryOk(pending[0], buffers);
    MistakenExactly(x, e.ordinal);
    assert Kept(buffers, e.buffer, asked, pending);
    var own := Item(asked[Slot(x).value].ready, Request(e.buffer, x.maps, x.write.Some?));
    var k :| 0 <= k < |pending| && pending[k] == own;
    assert k == 0;
  }

  /** A buffer without requests in flight has no callback left: its destructor is silent. */
  lemma {:induction false} NothingWaits(buffers: Store, b: BufferId, asked: seq<Ask>, pending: Queue)
    requires Kept(buffers, b, asked, pending) && forall i :: 0 <= i < |pending| ==> pending[i].value.buffer != b
    ensures Slot(buffers[b]).None?
  {
  }

  /** Dropping the last reference. */
  lemma {:induction false} DestroyStep(buffers: Store, b: BufferId, asked: seq<Ask>, pending: Queue, bound: BufferId)
    requires StoreOk(buffers, asked, pending, bound) && b in buffers
    requires forall i :: 0 <= i < |pending| ==> pending[i].value.buffer != b
    ensures Slot(buffers[b]).None? && StoreOk(buffers - {b}, asked, pending, bound)
  {
    assert Kept(buffers, b, asked, pending);
    NothingWaits(buffers, b, asked, pending);
    forall g | g in buffers - {b}
      ensures Kept(buffers - {b}, g, asked, pending)
    {
      assert Kept(buffers, g, asked, pending);
    }
    forall i | 0 <= i < |pending| ensures EntryOk(pending[i], buffers - {b}) { assert EntryOk(pending[i], buffers); }
  }

  lemma {:induction false} CreateStep(buffers: Store, asked: seq<Ask>, inFlight: Queue, bound: BufferId, x: Buffer)
    requires StoreOk(buffers, asked, inFlight, bound) && x.read.None? && x.write.None? && FieldsOk(x)
    ensures bound !in buffers && CountOf(inFlight, bound) == 0
    ensures StoreOk(buffers[bound := x], asked, inFlight, bound + 1)
  {
    forall i | 0 <= i < |inFlight| ensures inFlight[i].value.buffer != bound { assert EntryOk(inFlight[i], buffers); }
    CountOfNone(inFlight, bound);
    var buffers' := buffers[bound := x];
    forall g | g in buffers' ensures Kept(buffers', g, asked, inFlight) {
      if g != bound { assert Kept(buffers, g, asked, inFlight); }
    }
  }

  // The references.

  lemma {:induction false} SameRefs(buffers: Store, buffers': Store, held: Queue, extern: map<BufferId, nat>,
                                    extra: BufferId, bound: BufferId)
    requires RefsOk(buffers, held, extern, extra, bound) && buffers'.Keys == buffers.Keys
    requires forall b :: b in buffers ==> buffers'[b].refs == buffers[b].refs
    ensures RefsOk(buffers', held, extern, extra, bound)
  {
    forall g | g in buffers'
      ensures RefOk(buffers', g, held, extern, extra)
    {
      assert RefOk(buffers, g, held, extern, extra);
    }
  }

  /** Dropping the reference `b`. */
  lemma {:induction false} DropRef(buffers: Store, b: BufferId, held: Queue, extern: map<BufferId, nat>,
                                   bound: BufferId)
    requires RefsOk(buffers, held, extern, b, bound) && b in buffers && InBounds(buffers.Keys, bound)
    ensures buffers[b].refs > 1 ==>
      RefsOk(buffers[b := buffers[b].(refs := buffers[b].refs - 1)], held, extern, NONE, bound)
    ensures buffers[b].refs == 1 ==> CountOf(held, b) == 0 && RefsOk(buffers - {b}, held, extern, NONE, bound)
    ensures buffers[b].refs > 0
  {
    assert RefOk(buffers, b, held, extern, b);
    var x := buffers[b];
    var buffers' := if x.refs > 1 then buffers[b := x.(refs := x.refs - 1)] else buffers - {b};
    forall g | g in buffers'
      ensures RefOk(buffers', g, held, extern, NONE)
    {
      assert RefOk(buffers, g, held, extern, b);
    }
    forall i | 0 <= i < |held| ensures held[i].value.buffer in buffers' { CountOfSome(held, i); }
  }

  lemma {:induction false} TrackRef(buffers: Store, b: BufferId, x: Buffer, held: Queue, e: Item<Request>,
                                    extern: map<BufferId, nat>, bound: BufferId)
    requires RefsOk(buffers, held, extern, NONE, bound) && b in buffers && e.value.buffer == b
    requires x.refs == buffers[b].refs + 1
    ensures RefsOk(buffers[b := x], held + [e], extern, NONE, bound)
  {
    var buffers' := buffers[b := x];
    forall g | g in buffers' ensures RefOk(buffers', g, held + [e], extern, NONE) {
      assert RefOk(buffers, g, held, extern, NONE);
      CountOfAppend(held, e, g);
    }
    assert buffers'.Keys == buffers.Keys;
  }

  lemma {:induction false} CreateRef(buffers: Store, n: BufferId, x: Buffer, held: Queue, extern: map<BufferId, nat>)
    requires RefsOk(buffers, held, extern, NONE, n) && n !in buffers && CountOf(held, n) == 0 && 0 <= n && x.refs == 1
    ensures RefsOk(buffers[n := x], held, extern[n := 1], NONE, n + 1)
  {
    var buffers', extern' := buffers[n := x], extern[n := 1];
    forall g | g in buffers'
      ensures RefOk(buffers', g, held, extern', NONE)
    {
      assert g != n ==> RefOk(buffers, g, held, extern, NONE);
    }
  }

  /** The tracker gives up the reference at the head of its queue. */
  lemma {:induction false} ForgetRef(buffers: Store, held: Queue, extern: map<BufferId, nat>, bound: BufferId)
    requires RefsOk(buffers, held, extern, NONE, bound) && held != [] && InBounds(buffers.Keys, bound)
    ensures RefsOk(buffers, held[1..], extern, held[0].value.buffer, bound)
  {
    var b := held[0].value.buffer;
    forall g | g in buffers ensures RefOk(buffers, g, held[1..], extern, b) {
      assert RefOk(buffers, g, held, extern, NONE);
      CountOfHead(held, g);
    }
  }

  /** The application gives up a reference. */
  lemma {:induction false} GiveUpRef(buffers: Store, b: BufferId, held: Queue, extern: map<BufferId, nat>,
                                     bound: BufferId)
    requires RefsOk(buffers, held, extern, NONE, bound) && b in buffers && Held(extern, b) > 0
    requires InBounds(buffers.Keys, bound)
    ensures RefsOk(buffers, held, extern[b := Held(extern, b) - 1], b, bound)
  {
    forall g | g in buffers ensures RefOk(buffers, g, held, extern[b := Held(extern, b) - 1], b) {
      assert RefOk(buffers, g, held, extern, NONE);
    }
  }

  // What a tick does.

  /** The callback that finishing a request makes, if any. */
  function CallFor(x: Buffer, e: Request, status: Status): (calls: seq<Callback>)
  {
    if Fires(x, e.ordinal, e.isWrite) && Slot(x).Some? then [Callback(Slot(x).value, status)] else []
  }

  /** The buffers after the requests have been finished. */
  function AfterRequests(buffers: Store, due: Queue): (r: Store)
    ensures r.Keys == buffers.Keys
  {
    if due == [] then buffers
    else
      var now := AfterRequests(buffers, due[..|due| - 1]);
      var e := due[|due| - 1].value;
      if e.buffer in now then now[e.buffer := Finished(now[e.buffer], e)] else now
  }

  /** The callbacks that finishing the requests makes, in order. */
  function CallsFor(buffers: Store, due: Queue, status: Status): (calls: seq<Callback>)
    ensures forall i :: 0 <= i < |calls| ==> calls[i].status == status
  {
    if due == [] then []
    else
      var now := AfterRequests(buffers, due[..|due| - 1]);
      var e := due[|due| - 1].value;
      CallsFor(buffers, due[..|due| - 1], status) + if e.buffer in now then CallFor(now[e.buffer], e, status) else []
  }

  lemma {:induction false} AfterOneMore(buffers: Store, due: Queue, i: nat, log: seq<Callback>, status: Status)
    requires i < |due| && due[i].value.buffer in AfterRequests(buffers, due[..i])
    ensures var now := AfterRequests(buffers, due[..i]);
      var e := due[i].value;
      && AfterRequests(buffers, due[..i + 1]) == now[e.buffer := Finished(now[e.buffer], e)]
      && (log + CallsFor(buffers, due[..i], status)) + CallFor(now[e.buffer], e, status) ==
        log + CallsFor(buffers, due[..i + 1], status)
  {
    assert due[..i + 1][..i] == due[..i];
  }

  /** The k-th request due finds the callback of its buffer, and no earlier one has found it. */
  predicate FoundAt(buffers: Store, due: Queue, k: nat) {
    && k < |due| && Finds(buffers, due[k].value)
    && forall j {:trigger Finds(buffers, due[j].value)} :: 0 <= j < k && due[j].value.buffer == due[k].value.buffer ==>
         !Finds(buffers, due[j].value)
  }

  predicate Finds(buffers: Store, e: Request) {
    && e.buffer in buffers && (if e.isWrite then buffers[e.buffer].write.Some? else buffers[e.buffer].read.Some?)
    && (buffers[e.buffer].maps - e.ordinal) % 0x1_0000_0000 == 0
  }

  /** `at` lists, in order, the requests among the first n that find a callback. */
  ghost predicate FoundBy(buffers: Store, due: Queue, n: nat, at: seq<nat>) {
    && (forall i, j :: 0 <= i < j < |at| ==> at[i] < at[j])
    && (forall i :: 0 <= i < |at| ==> at[i] < n && FoundAt(buffers, due, at[i]))
    && (forall k {:trigger FoundAt(buffers, due, k)} :: 0 <= k < n && FoundAt(buffers, due, k) ==> k in at)
  }

  /** The calls are those of the callbacks found, in the order of the requests that find them. */
  ghost predicate CallsAt(buffers: Store, due: Queue, at: seq<nat>, calls: seq<Callback>, status: Status) {
    |calls| == |at| && forall i :: 0 <= i < |at| ==>
      at[i] < |due| && due[at[i]].value.buffer in buffers
      && [calls[i]] == SlotCall(buffers[due[at[i]].value.buffer], status)
  }

  ghost predicate CallsOk(buffers: Store, due: Queue, calls: seq<Callback>, status: Status) {
    exists at :: FoundBy(buffers, due, |due|, at) && CallsAt(buffers, due, at, calls, status)
  }

  lemma {:induction false} FindsIsFires(buffers: Store, e: Request)
    ensures Finds(buffers, e) <==> e.buffer in buffers && Fires(buffers[e.buffer], e.ordinal, e.isWrite)
  {
    if e.buffer in buffers {
      var m, n := buffers[e.buffer].maps, e.ordinal;
      if n <= m { MistakenExactly(buffers[e.buffer], n); } else { MistakenLater(m, n); }
    }
  }

  lemma {:induction false} MistakenLater(m: nat, n: nat)
    requires m < n
    ensures MapSerial(n) == MapSerial(m) <==> (m - n) % 0x1_0000_0000 == 0
  {
  }

  /** Until its callback is found, a buffer stays as it was; then it has none. */
  lemma {:induction false} AfterFinding(buffers: Store, due: Queue, n: nat, b: BufferId)
    requires n <= |due| && b in buffers
    ensures AfterRequests(buffers, due[..n])[b] ==
      if exists k :: 0 <= k < n && due[k].value.buffer == b && Finds(buffers, due[k].value) then Cleared(buffers[b])
      else buffers[b]
  {
    if n > 0 {
      AfterFinding(buffers, due, n - 1, b);
      assert due[..n][..n - 1] == due[..n - 1];
      FindsIsFires(buffers, due[n - 1].value);
    }
  }

  lemma {:induction false} CallsFound(buffers: Store, due: Queue, n: nat, status: Status) returns (at: seq<nat>)
    requires n <= |due|
    ensures FoundBy(buffers, due, n, at) && CallsAt(buffers, due, at, CallsFor(buffers, due[..n], status), status)
  {
    at := [];
    if n > 0 {
      var m := n - 1;
      at := CallsFound(buffers, due, m, status);
      assert due[..n][..m] == due[..m];
      var e := due[m].value;
      FindsIsFires(buffers, e);
      if e.buffer in buffers { AfterFinding(buffers, due, m, e.buffer); }
      if FoundAt(buffers, due, m) {
        at := at + [m];
      }
    }
  }

  /** r waits, and its serial has passed. */
  ghost predicate Ready(buffers: Store, asked: seq<Ask>, completed: Serial, r: RequestId) {
    0 <= r < |asked| && Waits(buffers, asked[r], r) > 0 && asked[r].ready <= completed
  }

  /** Whoever waited for a serial that has passed is among those called back. */
  lemma {:induction false} AllReadyAnswered(buffers: Store, buffers': Store, asked: seq<Ask>, log: seq<Callback>,
                                            calls: seq<Callback>, rest: Queue, bound: BufferId, completed: Serial,
                                            status: Status)
    requires EachOnce(buffers, asked, log) && EachOnce(buffers', asked, log + calls)
    requires StoreOk(buffers', asked, rest, bound)
    requires Above(rest, completed) && forall i :: 0 <= i < |calls| ==> calls[i].status == status
    ensures forall r :: Ready(buffers, asked, completed, r) ==> Callback(r, status) in log + calls
  {
    forall r | Ready(buffers, asked, completed, r) ensures Callback(r, status) in log + calls {
      assert Calls(log, r) + Waits(buffers, asked[r], r) == 1
        && Calls(log + calls, r) + Waits(buffers', asked[r], r) == 1;
      NotWaitingNow(buffers', asked, rest, bound, completed, r);
      var k := NewCall(log, calls, r);
      assert calls[k] == Callback(r, status);
    }
  }

  lemma {:induction false} NotWaitingNow(buffers: Store, asked: seq<Ask>, rest: Queue, bound: BufferId,
                                         completed: Serial, r: RequestId)
    requires StoreOk(buffers, asked, rest, bound) && Above(rest, completed) && 0 <= r < |asked|
    requires asked[r].ready <= completed
    ensures Waits(buffers, asked[r], r) == 0
  {
    if asked[r].buffer.Real? && asked[r].buffer.id in buffers {
      var b := asked[r].buffer.id;
      assert Kept(buffers, b, asked, rest);
      forall i | 0 <= i < |rest| ensures rest[i].serial != asked[r].ready {}
    }
  }

  lemma {:induction false} TrackedLater(inFlight: Queue, e: Item<Request>)
    requires Sorted(inFlight) && Between(inFlight, 0, e.serial)
    ensures Sorted(inFlight + [e]) && Between(inFlight + [e], 0, e.serial)
  {
    SortedAppend(inFlight, e);
  }

  /** `wrapped` has the buffers whose map serial ran through all 32-bit values. */
  predicate WrappedOk(buffers: Store, wrapped: set<BufferId>) {
    forall b :: b in buffers ==> (b in wrapped <==> buffers[b].maps >= 0x1_0000_0000)
  }

  /** The buffer b has become x. */
  function Wrapping(wrapped: set<BufferId>, b: BufferId, x: Buffer): (r: set<BufferId>) {
    if x.maps >= 0x1_0000_0000 then wrapped + {b} else wrapped
  }

  ghost predicate AllRequestsOk(buffers: Store, asked: seq<Ask>, log: seq<Callback>, completed: Serial,
                                wrapped: set<BufferId>) {
    EachOnce(buffers, asked, log) && LogOk(asked, log, completed, wrapped) && WrappedOk(buffers, wrapped)
  }

  /** A request starts; `refs` more references are held. */
  lemma {:induction false} StartStep(buffers: Store, b: BufferId, isWrite: bool, refs: nat, asked: seq<Ask>,
                                     log: seq<Callback>, inFlight: Queue, bound: BufferId, completed: Serial,
                                     wrapped: set<BufferId>, ask: Ask)
    requires AllRequestsOk(buffers, asked, log, completed, wrapped) && ask.buffer == Real(b)
    requires StoreOk(buffers, asked, inFlight, bound) && b in buffers && Mappable(buffers[b], isWrite)
    ensures buffers[b].read.None? && buffers[b].write.None?
    ensures var x := StartMap(buffers[b], |asked|, isWrite, refs);
      && Slot(x) == Some(|asked|)
      && AllRequestsOk(buffers[b := x], asked + [ask], log, completed, Wrapping(wrapped, b, x))
  {
    SlotFacts(buffers, asked, inFlight, bound, b);
    var x := StartMap(buffers[b], |asked|, isWrite, refs);
    WaitStep(buffers, asked, log, b, x, ask);
    LogStays(asked, [ask], log, completed, completed, wrapped, Wrapping(wrapped, b, x));
  }

  /** Serials, the tracker and the buffers of one device. */
  class Timeline {
    var alive: bool
    var lastSubmitted: Serial
    var completed: Serial
    var buffers: Store
    /** mInflightRequests. */
    var inFlight: Queue
    var nextBuffer: BufferId
    var nextRequest: RequestId

    /** The references that the application holds. */
    ghost var extern: map<BufferId, nat>
    /** The calls of MapReadAsync and MapWriteAsync, and the calls back. */
    ghost var asked: seq<Ask>
    ghost var log: seq<Callback>
    /** The buffers whose map serial ran through all 32-bit values. */
    ghost var wrapped: set<BufferId>

    ghost predicate SerialsOk()
      reads this
    {
      && nextRequest == |asked| && completed <= lastSubmitted
      && Sorted(inFlight) && Between(inFlight, 0, lastSubmitted + 1)
      && (!alive ==> Between(inFlight, 0, completed)) && InBounds(wrapped, nextBuffer)
    }

    /** The buffers are in order, with the requests in `pending` still to be finished. */
    ghost predicate BuffersOk(pending: Queue)
      reads this
    {
      StoreOk(buffers, asked, pending, nextBuffer) && AllRequestsOk(buffers, asked, log, completed, wrapped)
    }

    ghost predicate Valid()
      reads this
    {
      SerialsOk() && BuffersOk(inFlight) && RefsOk(buffers, inFlight, extern, NONE, nextBuffer)
    }

    /** What a request is told when its serial has passed. */
    function Outcome(): (status: Status)
      reads this
    {
      if alive then Success else DeviceLost
    }

    constructor ()
      ensures Valid() && alive && buffers == map[] && asked == [] && log == [] && inFlight == [] && extern == map[]
      ensures wrapped == {} && lastSubmitted == completed == 0
    {
      alive, lastSubmitted, completed, buffers, inFlight, nextBuffer, nextRequest := true, 0, 0, map[], [], 0, 0;
      extern, asked, log, wrapped := map[], [], [], {};
    }

    /** CreateBuffer and CreateBufferMapped; `staged` when a mapped buffer is not writable directly, which
        no back end says of a buffer with a map usage. */
    method CreateBuffer(mapRead: bool, mapWrite: bool, mapped: bool, staged: bool) returns (buffer: Handle)
      requires Valid() && (staged ==> !mapRead && !mapWrite)
      modifies this`buffers, this`nextBuffer, this`extern
      ensures Valid() && buffer == (if alive then Real(old(nextBuffer)) else ErrorBuffer)
      ensures alive ==>
        && nextBuffer == old(nextBuffer) + 1 && old(nextBuffer) !in old(buffers)
        && extern == old(extern)[old(nextBuffer) := 1]
        && var state := if mapped then Mapped else Unmapped;
        && buffers ==
          old(buffers)[old(nextBuffer) := Buffer(1, mapRead, mapWrite, state, 0, None, None, mapped && staged)]
      ensures !alive ==> buffers == old(buffers) && extern == old(extern)
    {
      if !alive {
        return ErrorBuffer;
      }
      buffer := Real(nextBuffer);
      AddBuffer(NewBuffer(mapRead, mapWrite, mapped, staged));
    }

    method AddBuffer(x: Buffer)
      requires Valid() && x.refs == 1 && x.maps == 0 && x.read.None? && x.write.None? && FieldsOk(x)
      modifies this`buffers, this`nextBuffer, this`extern
      ensures Valid() && nextBuffer == old(nextBuffer) + 1 && old(nextBuffer) !in old(buffers)
      ensures buffers == old(buffers)[old(nextBuffer) := x] && extern == old(extern)[old(nextBuffer) := 1]
    {
      CreateStep(buffers, asked, inFlight, nextBuffer, x);
      CreateRef(buffers, nextBuffer, x, inFlight, extern);
      SameSlots(buffers, buffers[nextBuffer := x], asked, log);
      buffers := buffers[nextBuffer := x];
      extern := extern[nextBuffer := 1];
      nextBuffer := nextBuffer + 1;
    }

    method Submit(accepted: bool)
      requires Valid()
      modifies this`lastSubmitted
      ensures Valid() && lastSubmitted == old(lastSubmitted) + if alive && accepted then 1 else 0
    {
      if alive && accepted {
        lastSubmitted := lastSubmitted + 1;
      }
    }

    /** CallMapReadCallback or CallMapWriteCallback. */
    method CallMapCallback(b: BufferId, ordinal: nat, isWrite: bool, status: Status)
      requires AllRequestsOk(buffers, asked, log, completed, wrapped) && b in buffers && FieldsOk(buffers[b])
      requires Slot(buffers[b]).Some? ==>
        0 <= Slot(buffers[b]).value < |asked| && asked[Slot(buffers[b]).value].buffer == Real(b)
      requires status == Success && Fires(buffers[b], ordinal, isWrite) ==>
        SuccessOk(asked[Slot(buffers[b]).value], completed, wrapped)
      modifies this`buffers, this`log
      ensures AllRequestsOk(buffers, asked, log, completed, wrapped)
      ensures buffers == old(buffers)[b := Finished(old(buffers)[b], Request(b, ordinal, isWrite))]
      ensures log ==
        old(log) + CallFor(old(buffers)[b], Request(b, ordinal, isWrite), if alive then status else DeviceLost)
    {
      if Fires(buffers[b], ordinal, isWrite) {
        var x' := if isWrite then buffers[b].(write := None) else buffers[b].(read := None);
        ghost var actual := if alive then status else DeviceLost;
        EmptySlot(buffers, b, x', asked, log, actual);
        LogGrows(asked, log, completed, wrapped, Callback(Slot(buffers[b]).value, actual));
        log := log + [Callback(Slot(buffers[b]).value, actual)];
        buffers := buffers[b := x'];
      }
    }

    /** What ValidateMap lets through. */
    predicate CanMap(buffer: Handle, isWrite: bool)
      reads this
      requires buffer.Real? ==> buffer.id in buffers
    {
      alive && buffer.Real? && Mappable(buffers[buffer.id], isWrite)
    }

    /** MapReadAsync or MapWriteAsync; `accepted` is what the back end says. */
    method MapAsync(buffer: Handle, isWrite: bool, accepted: bool)
      requires Valid() && (buffer.Real? ==> buffer.id in buffers)
      modifies this`buffers, this`inFlight, this`nextRequest, this`asked, this`log, this`wrapped
      ensures Valid() && asked == old(asked) + [Ask(buffer, isWrite, lastSubmitted + 1)]
      ensures old(CanMap(buffer, isWrite)) <==>
        && alive && buffer.Real? && old(buffers)[buffer.id].state == Unmapped
        && if isWrite then old(buffers)[buffer.id].mapWrite else old(buffers)[buffer.id].mapRead
      ensures old(CanMap(buffer, isWrite)) && accepted ==>
        && log == old(log)
        && var x, r := old(buffers)[buffer.id], Some(|old(asked)|);
        && buffers == old(buffers)[buffer.id := Buffer(x.refs + 1, x.mapRead, x.mapWrite, Mapped, x.maps + 1,
             if isWrite then None else r, if isWrite then r else None, x.staging)]
        && inFlight ==
          old(inFlight) + [Item(lastSubmitted + 1, Request(buffer.id, old(buffers)[buffer.id].maps + 1, isWrite))]
      ensures !old(CanMap(buffer, isWrite)) || !accepted ==>
        && log ==
          old(log) + [Callback(|old(asked)|, if old(CanMap(buffer, isWrite)) || !alive then DeviceLost else Error)]
        && inFlight == old(inFlight)
      ensures !old(CanMap(buffer, isWrite)) ==> buffers == old(buffers)
      ensures old(CanMap(buffer, isWrite)) && !accepted ==>
        var x := old(buffers)[buffer.id];
        buffers == old(buffers)[buffer.id := Buffer(x.refs, x.mapRead, x.mapWrite, Mapped, x.maps + 1, None, None,
          x.staging)]
      ensures wrapped ==
        if old(CanMap(buffer, isWrite)) then Wrapping(old(wrapped), buffer.id, buffers[buffer.id]) else old(wrapped)
    {
      if !CanMap(buffer, isWrite) {
        Answer(Ask(buffer, isWrite, lastSubmitted + 1), if alive then Error else DeviceLost);
      } else if accepted {
        StartTracked(buffer.id, isWrite);
      } else {
        StartRefused(buffer.id, isWrite);
      }
    }

    /** Validation failed: the callback is called at once. */
    method Answer(ghost ask: Ask, ghost status: Status)
      requires Valid() && status != Success
      modifies this`nextRequest, this`asked, this`log
      ensures Valid() && asked == old(asked) + [ask] && log == old(log) + [Callback(|old(asked)|, status)]
    {
      AskedStep(buffers, asked, ask, inFlight, nextBuffer);
      AnswerStep(buffers, asked, log, ask, status);
      LogStays(asked, [ask], log, completed, completed, wrapped, wrapped);
      LogGrows(asked + [ask], log, completed, wrapped, Callback(|asked|, status));
      asked, log := asked + [ask], log + [Callback(|asked|, status)];
      nextRequest := nextRequest + 1;
    }

    method StartTracked(b: BufferId, isWrite: bool)
      requires Valid() && b in buffers && Mappable(buffers[b], isWrite) && alive
      modifies this`buffers, this`inFlight, this`nextRequest, this`asked, this`wrapped
      ensures Valid() && asked == old(asked) + [Ask(Real(b), isWrite, lastSubmitted + 1)]
      ensures buffers == old(buffers)[b := StartMap(old(buffers)[b], |old(asked)|, isWrite, 1)]
      ensures old(buffers)[b].read.None? && old(buffers)[b].write.None?
      ensures inFlight == old(inFlight) + [Item(lastSubmitted + 1, Request(b, old(buffers)[b].maps + 1, isWrite))]
      ensures wrapped == Wrapping(old(wrapped), b, buffers[b])
    {
      var x := StartMap(buffers[b], nextRequest, isWrite, 1);
      var e := Item(lastSubmitted + 1, Request(b, x.maps, isWrite));
      ghost var ask := Ask(Real(b), isWrite, e.serial);
      StartStep(buffers, b, isWrite, 1, asked, log, inFlight, nextBuffer, completed, wrapped, ask);
      // The assert of the source: the other callback is not set.
      assert buffers[b].read.None? && buffers[b].write.None?;
      TrackStep(buffers, asked, inFlight, nextBuffer, b, isWrite, e.serial);
      TrackRef(buffers, b, x, inFlight, e, extern, nextBuffer);
      TrackedLater(inFlight, e);
      wrapped := Wrapping(wrapped, b, x);
      buffers := buffers[b := x];
      inFlight := inFlight + [e];
      asked := asked + [ask];
      nextRequest := nextRequest + 1;
    }

    method StartRefused(b: BufferId, isWrite: bool)
      requires Valid() && b in buffers && Mappable(buffers[b], isWrite) && alive
      modifies this`buffers, this`nextRequest, this`asked, this`log, this`wrapped
      ensures Valid() && asked == old(asked) + [Ask(Real(b), isWrite, lastSubmitted + 1)]
      ensures buffers == old(buffers)[b := Cleared(StartMap(old(buffers)[b], |old(asked)|, isWrite, 0))]
      ensures log == old(log) + [Callback(|old(asked)|, DeviceLost)]
      ensures wrapped == Wrapping(old(wrapped), b, buffers[b])
    {
      Start(b, isWrite);
      ghost var x := buffers[b];
      CallMapCallback(b, buffers[b].maps, isWrite, DeviceLost);
      assert buffers == old(buffers)[b := Cleared(x)];
      SameRefs(old(buffers), buffers, inFlight, extern, NONE, nextBuffer);
    }

    /** The callback is set; the store would be in order without it. */
    method Start(b: BufferId, isWrite: bool)
      requires Valid() && b in buffers && Mappable(buffers[b], isWrite)
      modifies this`buffers, this`nextRequest, this`asked, this`wrapped
      ensures AllRequestsOk(buffers, asked, log, completed, wrapped) && nextRequest == |asked|
      ensures asked == old(asked) + [Ask(Real(b), isWrite, lastSubmitted + 1)]
      ensures buffers == old(buffers)[b := StartMap(old(buffers)[b], |old(asked)|, isWrite, 0)]
      ensures Slot(buffers[b]) == Some(|old(asked)|)
      ensures Fires(buffers[b], buffers[b].maps, isWrite) && FieldsOk(buffers[b])
      ensures StoreOk(old(buffers)[b := Cleared(buffers[b])], asked, inFlight, nextBuffer)
      ensures wrapped == Wrapping(old(wrapped), b, buffers[b])
    {
      ghost var ask := Ask(Real(b), isWrite, lastSubmitted + 1);
      SlotFacts(buffers, asked, inFlight, nextBuffer, b);
      StartStep(buffers, b, isWrite, 0, asked, log, inFlight, nextBuffer, completed, wrapped, ask);
      RefusedStep(buffers, asked, ask, inFlight, nextBuffer, b, isWrite);
      var x := StartMap(buffers[b], nextRequest, isWrite, 0);
      wrapped := Wrapping(wrapped, b, x);
      buffers, asked := buffers[b := x], asked + [ask];
      nextRequest := nextRequest + 1;
    }

    /** What ValidateUnmap lets through. */
    predicate CanUnmap(b: BufferId)
      reads this
      requires b in buffers
    {
      var x := buffers[b];
      alive && (x.state == Mapped || (x.state == Unmapped && (x.mapRead || x.mapWrite)))
    }

    /** Unmap; `copied` tells whether a copy from the staging buffer succeeds. A waiting request is
        called back. */
    method Unmap(b: BufferId, copied: bool)
      requires Valid() && b in buffers
      modifies this`buffers, this`log
      ensures Valid() && (!old(CanUnmap(b)) ==> buffers == old(buffers) && log == old(log))
      ensures var x := old(buffers)[b];
        old(CanUnmap(b)) <==> alive && (x.state == Mapped || (x.state == Unmapped && (x.mapRead || x.mapWrite)))
      ensures old(CanUnmap(b)) ==>
        var x := old(buffers)[b];
        && buffers == old(buffers)[b := Buffer(x.refs, x.mapRead, x.mapWrite, Unmapped, x.maps, None, None,
             x.staging && !copied)]
        && log == old(log) + SlotCall(x, Unknown)
    {
      if CanUnmap(b) {
        if buffers[b].staging {
          UnmapStaged(b, copied);
        } else {
          UnmapDirect(b);
        }
      }
    }

    method UnmapDirect(b: BufferId)
      requires Valid() && b in buffers && !buffers[b].staging && alive && buffers[b].state != Destroyed
      modifies this`buffers, this`log
      ensures Valid() && buffers == old(buffers)[b := Unmapping(old(buffers)[b], true)]
      ensures log == old(log) + SlotCall(old(buffers)[b], Unknown)
    {
      CallBoth(b);
      Change(b, buffers[b].(state := Unmapped, read := None, write := None));
      assert buffers == old(buffers)[b := Unmapping(old(buffers)[b], true)];
    }

    /** Call the callback that is set, whichever it is. */
    method CallBoth(b: BufferId)
      requires Valid() && b in buffers && alive
      modifies this`buffers, this`log
      ensures Valid() && buffers == old(buffers)[b := Cleared(old(buffers)[b])]
      ensures log == old(log) + SlotCall(old(buffers)[b], Unknown)
    {
      SlotFacts(buffers, asked, inFlight, nextBuffer, b);
      ChangeStep(buffers, asked, inFlight, nextBuffer, b, Cleared(buffers[b]));
      CallMapCallback(b, buffers[b].maps, false, Unknown);
      CallMapCallback(b, buffers[b].maps, true, Unknown);
      assert buffers == old(buffers)[b := Cleared(old(buffers)[b])];
      SameRefs(old(buffers), buffers, inFlight, extern, NONE, nextBuffer);
    }

    /** Change the fields of a buffer other than its count, its serial and its callbacks. */
    method Change(b: BufferId, x: Buffer)
      requires Valid() && b in buffers && FieldsOk(x) && x.refs == buffers[b].refs && x.maps == buffers[b].maps
      requires x.read == buffers[b].read && x.write == buffers[b].write
      modifies this`buffers
      ensures Valid() && buffers == old(buffers)[b := x]
    {
      ChangeStep(buffers, asked, inFlight, nextBuffer, b, x);
      SameSlots(buffers, buffers[b := x], asked, log);
      SameRefs(buffers, buffers[b := x], inFlight, extern, NONE, nextBuffer);
      buffers := buffers[b := x];
    }

    method UnmapStaged(b: BufferId, copied: bool)
      requires Valid() && b in buffers && buffers[b].staging && alive && buffers[b].state != Destroyed
      modifies this`buffers
      ensures Valid() && buffers == old(buffers)[b := Unmapping(old(buffers)[b], copied)] && Slot(old(buffers)[b]).None?
    {
      SlotFacts(buffers, asked, inFlight, nextBuffer, b);
      Change(b, Unmapping(buffers[b], copied));
    }

    /** Destroy: on a lost device a waiting request stays with the tracker. */
    method Destroy(b: BufferId)
      requires Valid() && b in buffers
      modifies this`buffers, this`log
      ensures Valid()
      ensures var x := old(buffers)[b];
        var unmapped := x.state == Mapped && !x.staging && alive;
        && log == (old(log) + if unmapped then SlotCall(x, Unknown) else [])
        && buffers == old(buffers)[b := Buffer(x.refs, x.mapRead, x.mapWrite, Destroyed, x.maps,
             if unmapped then None else x.read, if unmapped then None else x.write, x.staging && x.state != Mapped)]
    {
      SlotFacts(buffers, asked, inFlight, nextBuffer, b);
      if buffers[b].state == Mapped && !buffers[b].staging {
        Unmap(b, true);
      }
      SlotFacts(buffers, asked, inFlight, nextBuffer, b);
      Change(b, buffers[b].(state := Destroyed, staging := buffers[b].staging && buffers[b].state != Mapped));
    }

    /** OnMapCommandSerialFinished for the oldest request still pending. */
    method Finish(e: Request, ghost pending: Queue)
      requires BuffersOk(pending) && pending != [] && pending[0].value == e && pending[0].serial <= completed
      modifies this`buffers, this`log
      ensures BuffersOk(pending[1..])
      ensures e.buffer in old(buffers) && buffers == old(buffers)[e.buffer := Finished(old(buffers)[e.buffer], e)]
      ensures log == old(log) + CallFor(old(buffers)[e.buffer], e, if alive then Success else DeviceLost)
    {
      FinishStep(buffers, asked, pending, nextBuffer);
      SlotFacts(buffers, asked, pending, nextBuffer, e.buffer);
      if e.buffer !in wrapped && Fires(buffers[e.buffer], e.ordinal, e.isWrite) {
        FiresOnTime(buffers, asked, pending, nextBuffer);
      }
      CallMapCallback(e.buffer, e.ordinal, e.isWrite, Success);
    }

    /** Drop one reference; the last one destroys the buffer, which has no callback left to call. */
    method Release(b: BufferId, ghost pending: Queue, ghost held: Queue)
      requires BuffersOk(pending) && RefsOk(buffers, held, extern, b, nextBuffer) && b in buffers
      requires forall i :: 0 <= i < |pending| ==> CountOf(held, pending[i].value.buffer) > 0
      modifies this`buffers
      ensures BuffersOk(pending) && RefsOk(buffers, held, extern, NONE, nextBuffer)
      ensures buffers.Keys == old(buffers).Keys - if Uses(b, held, extern, NONE) > 0 then {} else {b}
      ensures forall g :: g in buffers ==> SameButRefs(buffers[g], old(buffers)[g])
    {
      assert RefOk(buffers, b, held, extern, b);
      DropRef(buffers, b, held, extern, nextBuffer);
      if buffers[b].refs > 1 {
        Unreference(b, pending);
      } else {
        Remove(b, pending);
      }
    }

    method Unreference(b: BufferId, ghost pending: Queue)
      requires BuffersOk(pending) && b in buffers && buffers[b].refs > 1
      modifies this`buffers
      ensures BuffersOk(pending) && buffers == old(buffers)[b := old(buffers)[b].(refs := old(buffers)[b].refs - 1)]
    {
      var x := buffers[b].(refs := buffers[b].refs - 1);
      SlotFacts(buffers, asked, pending, nextBuffer, b);
      ChangeStep(buffers, asked, pending, nextBuffer, b, x);
      SameSlots(buffers, buffers[b := x], asked, log);
      buffers := buffers[b := x];
    }

    /** The destructor would call back what waits. */
    method Remove(b: BufferId, ghost pending: Queue)
      requires BuffersOk(pending) && b in buffers && forall i :: 0 <= i < |pending| ==> pending[i].value.buffer != b
      modifies this`buffers
      ensures BuffersOk(pending) && buffers == old(buffers) - {b} && Slot(old(buffers)[b]).None?
    {
      DestroyStep(buffers, b, asked, pending, nextBuffer);
      SameSlots(buffers, buffers - {b}, asked, log);
      buffers := buffers - {b};
    }

    /** The application drops a reference that it holds. */
    method ReleaseByApplication(b: BufferId)
      requires Valid() && b in buffers && Held(extern, b) > 0
      modifies this`buffers, this`extern
      ensures Valid() && extern == old(extern)[b := Held(old(extern), b) - 1]
      ensures b in buffers <==> Uses(b, inFlight, extern, NONE) > 0
      ensures forall g :: g in old(buffers) && g != b ==> g in buffers
      ensures forall g :: g in buffers ==> g in old(buffers) && SameButRefs(buffers[g], old(buffers)[g])
    {
      GiveUpRef(buffers, b, inFlight, extern, nextBuffer);
      extern := extern[b := Held(extern, b) - 1];
      forall i | 0 <= i < |inFlight|
        ensures CountOf(inFlight, inFlight[i].value.buffer) > 0
      {
        CountOfSome(inFlight, i);
      }
      Release(b, inFlight, inFlight);
    }

    /** MapRequestTracker::Tick: the requests whose serial has passed are finished, whoever waited for one is
        called back, and nothing that the application holds goes. */
    method TrackerTick()
      requires Valid()
      modifies this`buffers, this`inFlight, this`log
      ensures Valid() && inFlight == Beyond(old(inFlight), completed)
      ensures log == old(log) + CallsFor(old(buffers), UpTo(old(inFlight), completed), Outcome())
      ensures CallsOk(old(buffers), UpTo(old(inFlight), completed), log[|old(log)|..],
                      if alive then Success else DeviceLost)
      ensures forall b :: b in buffers ==>
        b in old(buffers) && SameButRefs(buffers[b], AfterRequests(old(buffers), UpTo(old(inFlight), completed))[b])
      ensures forall r :: Ready(old(buffers), asked, completed, r) ==>
        Callback(r, if alive then Success else DeviceLost) in log
    {
      var due, rest := UpTo(inFlight, completed), Beyond(inFlight, completed);
      ghost var at := CallsFound(buffers, due, |due|, Outcome());
      assert due[..|due|] == due;
      CutQueue(inFlight, completed, lastSubmitted + 1);
      FinishAndDrop(due, rest);
      inFlight := rest;
    }

    /** Finish the requests in `due`, and let the buffers go. */
    method FinishAndDrop(due: Queue, ghost rest: Queue)
      requires inFlight == due + rest && BuffersOk(inFlight) && RefsOk(buffers, inFlight, extern, NONE, nextBuffer)
      requires Between(due, 0, completed) && Above(rest, completed)
      modifies this`buffers, this`log
      ensures BuffersOk(rest) && RefsOk(buffers, rest, extern, NONE, nextBuffer)
      ensures log == old(log) + CallsFor(old(buffers), due, Outcome())
      ensures forall b :: b in buffers ==>
        b in old(buffers) && SameButRefs(buffers[b], AfterRequests(old(buffers), due)[b])
      ensures forall r :: Ready(old(buffers), asked, completed, r) ==> Callback(r, Outcome()) in log
    {
      FinishDue(due, rest);
      DropDue(due, rest);
      AllReadyAnswered(old(buffers), buffers, asked, old(log), CallsFor(old(buffers), due, Outcome()), rest,
        nextBuffer, completed, Outcome());
    }

    method FinishDue(due: Queue, ghost rest: Queue)
      requires BuffersOk(due + rest) && RefsOk(buffers, inFlight, extern, NONE, nextBuffer)
      requires Between(due, 0, completed)
      modifies this`buffers, this`log
      ensures BuffersOk(rest) && RefsOk(buffers, inFlight, extern, NONE, nextBuffer)
      ensures buffers == AfterRequests(old(buffers), due) && log == old(log) + CallsFor(old(buffers), due, Outcome())
    {
      assert due[0..] == due;
      for i := 0 to |due|
        invariant BuffersOk(due[i..] + rest) && RefsOk(buffers, inFlight, extern, NONE, nextBuffer)
        invariant buffers == AfterRequests(old(buffers), due[..i])
        invariant log == old(log) + CallsFor(old(buffers), due[..i], Outcome())
      {
        NextOf(due, rest, i);
        ghost var before := buffers;
        Finish(due[i].value, due[i..] + rest);
        SameRefs(before, buffers, inFlight, extern, NONE, nextBuffer);
        AfterOneMore(old(buffers), due, i, old(log), Outcome());
      }
      assert due[|due|..] + rest == rest && due[..|due|] == due;
    }

    method DropDue(due: Queue, ghost rest: Queue)
      requires BuffersOk(rest) && RefsOk(buffers, due + rest, extern, NONE, nextBuffer)
      modifies this`buffers
      ensures BuffersOk(rest) && RefsOk(buffers, rest, extern, NONE, nextBuffer)
      ensures forall b :: b in buffers ==> b in old(buffers) && SameButRefs(buffers[b], old(buffers)[b])
    {
      assert due[0..] == due;
      for i := 0 to |due|
        invariant BuffersOk(rest) && RefsOk(buffers, due[i..] + rest, extern, NONE, nextBuffer)
        invariant forall b :: b in buffers ==> b in old(buffers) && SameButRefs(buffers[b], old(buffers)[b])
      {
        NextOf(due, rest, i);
        DropHead(due[i].value.buffer, due[i..] + rest, rest);
      }
      assert due[|due|..] + rest == rest;
    }

    /** ClearUpTo lets go of the buffer at the head of the queue. */
    method DropHead(b: BufferId, ghost held: Queue, ghost rest: Queue)
      requires BuffersOk(rest) && RefsOk(buffers, held, extern, NONE, nextBuffer) && held != []
      requires b == held[0].value.buffer
      requires |rest| < |held| && rest == held[|held| - |rest|..]
      modifies this`buffers
      ensures BuffersOk(rest) && RefsOk(buffers, held[1..], extern, NONE, nextBuffer)
      ensures forall g :: g in buffers ==> g in old(buffers) && SameButRefs(buffers[g], old(buffers)[g])
    {
      ForgetRef(buffers, held, extern, nextBuffer);
      ghost var held' := held[1..];
      forall i | 0 <= i < |rest| ensures CountOf(held', rest[i].value.buffer) > 0 {
        assert rest[i] == held'[|held'| - |rest| + i];
        CountOfSome(held', |held'| - |rest| + i);
      }
      Release(b, rest, held');
    }

    /** The GPU has come as far as `reached`. */
    method Advance(reached: Serial)
      requires Valid() && completed <= reached <= lastSubmitted
      modifies this`completed
      ensures Valid() && completed == reached
    {
      CompletedGrows(inFlight, asked, log, completed, reached, wrapped);
      completed := reached;
    }

    /** DeviceBase::Tick; the back end finds that the GPU has come as far as `reached`. */
    method Tick(reached: Serial)
      requires Valid() && reached <= lastSubmitted && (completed <= reached || reached == 0)
      modifies this`completed, this`buffers, this`inFlight, this`log
      ensures Valid() && completed == if alive && reached > old(completed) then reached else old(completed)
      ensures alive ==>
        && inFlight == Beyond(old(inFlight), completed)
        && log == old(log) + CallsFor(old(buffers), UpTo(old(inFlight), completed), Success)
        && CallsOk(old(buffers), UpTo(old(inFlight), completed), log[|old(log)|..], Success)
        && (forall b :: b in buffers ==>
          b in old(buffers) && SameButRefs(buffers[b], AfterRequests(old(buffers), UpTo(old(inFlight), completed))[b]))
        && forall r :: Ready(old(buffers), asked, completed, r) ==> Callback(r, Success) in log
      ensures !alive ==> buffers == old(buffers) && inFlight == old(inFlight) && log == old(log)
    {
      if alive {
        if reached > completed {
          Advance(reached);
        }
        TrackerTick();
      }
    }

    /** AssumeCommandsComplete. */
    method AssumeCommandsComplete()
      requires Valid()
      modifies this`lastSubmitted, this`completed
      ensures Valid() && completed == lastSubmitted == old(lastSubmitted) + 1 && Between(inFlight, 0, completed)
    {
      CompletedGrows(inFlight, asked, log, completed, lastSubmitted + 1, wrapped);
      lastSubmitted := lastSubmitted + 1;
      completed := lastSubmitted;
    }

    /** An internal error: the back end waits for the GPU and fakes the last serial. */
    method LoseDevice()
      requires Valid()
      modifies this`alive, this`lastSubmitted, this`completed
      ensures Valid() && !alive && completed == lastSubmitted == old(lastSubmitted) + 1
    {
      AssumeCommandsComplete();
      alive := false;
    }

    /** The part of ShutDownBase that ticks the tracker and frees it. `faked` tells whether waiting for
        the GPU also fakes a serial; without that, requests made since the last submit stay behind. */
    method ShutDown(faked: bool) returns (empty: bool)
      requires Valid()
      modifies this`lastSubmitted, this`completed, this`buffers, this`inFlight, this`log
      ensures Valid() && (empty <==> inFlight == [])
      ensures empty <==> faked || !alive || Between(old(inFlight), 0, old(lastSubmitted))
      ensures empty ==> AllCalledOnce(|asked|, log)
      ensures old(log) <= log
      ensures CallsOk(old(buffers), UpTo(old(inFlight), completed), log[|old(log)|..],
                      if alive then Success else DeviceLost)
    {
      if alive {
        if faked {
          AssumeCommandsComplete();
        } else {
          Advance(lastSubmitted);
        }
      }
      LeftBehind(inFlight, completed);
      TrackerTick();
      empty := inFlight == [];
      if empty {
        AllAnswered(buffers, asked, log, nextBuffer);
      }
    }
  }

  function NewBuffer(mapRead: bool, mapWrite: bool, mapped: bool, staged: bool): (x: Buffer) {
    Buffer(1, mapRead, mapWrite, if mapped then Mapped else Unmapped, 0, None, None, mapped && staged)
  }

  /** What Unmap makes of a buffer. */
  function Unmapping(x: Buffer, copied: bool): (x': Buffer) {
    Cleared(x).(state := Unmapped, staging := x.staging && !copied)
  }

  /** The call of the callback that is set, if one is. */
  function SlotCall(x: Buffer, status: Status): (calls: seq<Callback>)
    ensures x.read.Some? ==> calls == [Callback(x.read.value, status)]
    ensures x.read.None? && x.write.Some? ==> calls == [Callback(x.write.value, status)]
    ensures x.read.None? && x.write.None? ==> calls == []
  {
    if Slot(x).Some? then [Callback(Slot(x).value, status)] else []
  }

  predicate SameButRefs(x: Buffer, y: Buffer) {
    x == y.(refs := x.refs)
  }

  /** A queue is emptied exactly when nothing in it is beyond the serial. */
  lemma {:induction false} LeftBehind(inFlight: Queue, s: Serial)
    ensures Beyond(inFlight, s) == [] <==> Between(inFlight, 0, s)
  {
    if Between(inFlight, 0, s) {
      AllUpTo(inFlight, s);
    } else {
      var i :| 0 <= i < |inFlight| && !(0 <= inFlight[i].serial <= s);
      SomeBeyond(inFlight, s, i);
    }
  }

  lemma {:induction false} SomeBeyond(items: Queue, s: Serial, i: nat)
    requires i < |items| && items[i].serial > s
    ensures Beyond(items, s) != []
  {
    var n := |items| - 1;
    if i < n { SomeBeyond(items[..n], s, i); }
  }

  lemma {:induction false} CompletedGrows(inFlight: Queue, asked: seq<Ask>, log: seq<Callback>, completed: Serial,
                                          reached: Serial, wrapped: set<BufferId>)
    requires completed <= reached && LogOk(asked, log, completed, wrapped)
    ensures Between(inFlight, 0, completed) ==> Between(inFlight, 0, reached)
    ensures LogOk(asked, log, reached, wrapped)
  {
    LogStays(asked, [], log, completed, reached, wrapped, wrapped);
    assert asked + [] == asked;
  }

  lemma {:induction false} AllAnswered(buffers: Store, asked: seq<Ask>, log: seq<Callback>, bound: BufferId)
    requires StoreOk(buffers, asked, [], bound) && EachOnce(buffers, asked, log)
    ensures AllCalledOnce(|asked|, log)
  {
    forall r | 0 <= r < |asked| ensures Calls(log, r) == 1 {
      assert Calls(log, r) + Waits(buffers, asked[r], r) == 1;
      if asked[r].buffer.Real? && asked[r].buffer.id in buffers {
        assert Kept(buffers, asked[r].buffer.id, asked, []);
        NothingWaits(buffers, asked[r].buffer.id, asked, []);
      }
    }
  }

  /** In any valid state a request has been called back at most once, and exactly once when its buffer is
      gone. Success means that the serial of the request had passed, unless its own buffer has been mapped
      2^32 times. */
  lemma {:induction false} AnsweredByDestruction(t: Timeline, r: RequestId)
    requires t.Valid() && 0 <= r < |t.asked|
    ensures Calls(t.log, r) <= 1
    ensures t.asked[r].buffer.ErrorBuffer? || t.asked[r].buffer.id !in t.buffers ==> Calls(t.log, r) == 1
    ensures Callback(r, Success) in t.log ==>
      t.asked[r].buffer.Real? && (t.asked[r].ready <= t.completed || t.asked[r].buffer.id in t.wrapped)
    ensures forall b :: b in t.buffers ==> (b in t.wrapped <==> t.buffers[b].maps >= 0x1_0000_0000)
  {
    assert Calls(t.log, r) + Waits(t.buffers, t.asked[r], r) == 1;
    if Callback(r, Success) in t.log {
      var i :| 0 <= i < |t.log| && t.log[i] == Callback(r, Success);
      assert CallbackOk(t.log[i], t.asked, t.completed, t.wrapped);
    }
  }

  /** A destroyed buffer cannot be mapped again. */
  method DestroyThenMap(t: Timeline, b: BufferId, isWrite: bool, accepted: bool)
    requires t.Valid() && b in t.buffers
    modifies t
    ensures t.Valid() && b in t.buffers && t.buffers[b].state == Destroyed && t.inFlight == old(t.inFlight)
    ensures Callback(|old(t.asked)|, if t.alive then Error else DeviceLost) in t.log
  {
    t.Destroy(b);
    ghost var log := t.log;
    t.MapAsync(Real(b), isWrite, accepted);
    assert t.log[|log|] == Callback(|old(t.asked)|, if t.alive then Error else DeviceLost);
  }

  // A run that wraps around.

  /** After n maps of a readable buffer, all unmapped again: the first waits for serial 1, the others wait for
      more, and the GPU has done nothing. */
  ghost predicate MappedOften(t: Timeline, b: BufferId, n: nat)
    reads t
  {
    && t.Valid() && t.alive && t.completed == 0 && t.lastSubmitted == 1 && |t.asked| == n > 0
    && b in t.buffers && Mappable(t.buffers[b], false) && !t.buffers[b].staging && t.buffers[b].maps == n
    && t.inFlight != [] && t.inFlight[0] == Item(1, Request(b, 1, false)) && Above(t.inFlight[1..], 1)
  }

  method ReadableBuffer() returns (t: Timeline, b: BufferId)
    ensures fresh(t) && t.Valid() && t.alive && t.completed == t.lastSubmitted == 0 && t.asked == [] && t.inFlight == []
    ensures b in t.buffers && t.buffers[b] == NewBuffer(true, false, false, false)
  {
    t := new Timeline();
    var buffer := t.CreateBuffer(true, false, false, false);
    b := buffer.id;
  }

  method MapOnce() returns (t: Timeline, b: BufferId)
    ensures fresh(t) && MappedOften(t, b, 1)
  {
    t, b := ReadableBuffer();
    t.MapAsync(Real(b), false, true);
    t.Unmap(b, true);
    t.Submit(true);
  }

  method MapAgain(t: Timeline, b: BufferId, ghost n: nat)
    requires MappedOften(t, b, n)
    modifies t
    ensures t.Valid() && t.alive && t.completed == 0 && t.lastSubmitted == 1 && |t.asked| == n + 1
    ensures t.asked[n].ready == 2
    ensures b in t.buffers && !t.buffers[b].staging && t.buffers[b].maps == n + 1 && t.buffers[b].mapRead
    ensures t.buffers[b].state == Mapped
    ensures t.buffers[b].read == Some(n)
    ensures t.inFlight != [] && t.inFlight[0] == Item(1, Request(b, 1, false)) && Above(t.inFlight[1..], 1)
  {
    ghost var q := t.inFlight;
    t.MapAsync(Real(b), false, true);
    assert t.inFlight[1..] == q[1..] + [t.inFlight[|q|]];
  }

  method MapAndUnmap(t: Timeline, b: BufferId, ghost n: nat)
    requires MappedOften(t, b, n)
    modifies t
    ensures MappedOften(t, b, n + 1)
  {
    MapAgain(t, b, n);
    t.Unmap(b, true);
  }

  method MapOften() returns (t: Timeline, b: BufferId)
    ensures fresh(t) && MappedOften(t, b, 0x1_0000_0000)
  {
    t, b := MapOnce();
    for n := 1 to 0x1_0000_0000
      invariant fresh(t) && MappedOften(t, b, n)
    {
      MapAndUnmap(t, b, n);
    }
  }

  /** 2^32 maps after the first, serial 1 passes, and the stale first request completes the current one,
      which waits for serial 2. */
  method WrapAroundConfuses() returns (t: Timeline, r: RequestId)
    ensures t.Valid() && 0 <= r < |t.asked| && Callback(r, Success) in t.log && t.asked[r].ready > t.completed
  {
    var b;
    t, b := MapOften();
    r := 0x1_0000_0000;
    MapAgain(t, b, r);
    ghost var log := t.log;
    StaleFires(t.inFlight, t.buffers, b, r);
    t.Tick(1);
    assert t.log == log + [Callback(r, Success)];
  }

  lemma {:induction false} StaleFires(q: Queue, buffers: Store, b: BufferId, r: RequestId)
    requires q != [] && q[0] == Item(1, Request(b, 1, false)) && Above(q[1..], 1)
    requires b in buffers && buffers[b].read == Some(r) && buffers[b].maps == 0x1_0000_0001
    ensures CallsFor(buffers, UpTo(q, 1), Success) == [Callback(r, Success)]
  {
    assert q == [q[0]] + q[1..];
    SelectParts([q[0]], q[1..], 1);
    CallsForOne(buffers, q[0], Success);
    MistakenExactly(buffers[b], 1);
  }

  lemma {:induction false} CallsForOne(buffers: Store, e: Item<Request>, status: Status)
    requires e.value.buffer in buffers
    ensures CallsFor(buffers, [e], status) == CallFor(buffers[e.value.buffer], e.value, status)
  {
    assert [e][..0] == [];
    assert AfterRequests(buffers, []) == buffers && CallsFor(buffers, [], status) == [];
  }
}
