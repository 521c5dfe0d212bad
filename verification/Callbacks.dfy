/** The log of calls back to the application. A request is known by its number. */
module Callbacks {
  type RequestId = int

  /** WGPUFenceCompletionStatus and WGPUBufferMapAsyncStatus. */
  datatype Status = Success | Error | Unknown | DeviceLost
  datatype Callback = Callback(request: RequestId, status: Status)

  /** How often a request was called back. */
  function Calls(log: seq<Callback>, r: RequestId): (n: nat) {
    if log == [] then 0 else Calls(log[..|log| - 1], r) + if log[|log| - 1].request == r then 1 else 0
  }

  /** The first n requests have been called back, each once. */
  ghost predicate AllCalledOnce(n: nat, log: seq<Callback>) {
    forall r {:trigger Calls(log, r)} :: 0 <= r < n ==> Calls(log, r) == 1
  }

  lemma {:induction false} CallsAppend(log: seq<Callback>, c: Callback, r: RequestId)
    ensures Calls(log + [c], r) == Calls(log, r) + if c.request == r then 1 else 0
  {
    assert (log + [c])[..|log|] == log;
  }

  lemma {:induction false} CallsNone(log: seq<Callback>, r: RequestId)
    requires forall i :: 0 <= i < |log| ==> log[i].request != r
    ensures Calls(log, r) == 0
  {
    if log != [] { CallsNone(log[..|log| - 1], r); }
  }

  /** A request that had no call before is among the new calls. */
  lemma {:induction false} NewCall(log: seq<Callback>, calls: seq<Callback>, r: RequestId) returns (k: nat)
    requires Calls(log, r) == 0 && Calls(log + calls, r) > 0
    ensures k < |calls| && calls[k].request == r
    decreases |calls|
  {
    assert log + [] == log && calls != [];
    var n := |calls| - 1;
    if calls[n].request == r {
      k := n;
    } else {
      assert log + calls == (log + calls[..n]) + [calls[n]];
      CallsAppend(log + calls[..n], calls[n], r);
      k := NewCall(log, calls[..n], r);
    }
  }
}
