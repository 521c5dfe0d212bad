/** Sequences of pointers, as the two allocators with linked lists see their lists. */
module PointerLists {
  ghost predicate Distinct(xs: seq<nat>) {
    forall i, j :: 0 <= i < j < |xs| ==> xs[i] != xs[j]
  }

  /** The list without its k-th element. */
  function Without(xs: seq<nat>, k: nat): (r: seq<nat>)
    requires k < |xs|
  {
    xs[..k] + xs[k + 1..]
  }

  lemma WithoutMembers(xs: seq<nat>, k: nat, p: nat)
    requires k < |xs| && Distinct(xs)
    ensures p in Without(xs, k) <==> p in xs && p != xs[k]
  {
    if p in xs && p != xs[k] {
      var i :| 0 <= i < |xs| && xs[i] == p;
      assert Without(xs, k)[if i < k then i else i - 1] == p;
    }
  }
}
