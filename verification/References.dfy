/** The references that an application holds to objects known by number. */
module References {
  /** No object. */
  const NONE: int := -1

  function Held(extern: map<int, nat>, id: int): (n: nat) {
    if id in extern then extern[id] else 0
  }

  /** What the application holds is live. */
  predicate HeldLive(extern: map<int, nat>, live: set<int>, bound: int) {
    forall id :: id in extern ==> id < bound && (extern[id] > 0 ==> id in live)
  }

  predicate InBounds(ids: set<int>, bound: int) {
    forall id :: id in ids ==> 0 <= id < bound
  }
}
