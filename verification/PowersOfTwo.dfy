/** The integer helpers of src/common/Math.cpp that the allocators rest on, and the facts about
    aligned power-of-two intervals that make a buddy system work. */
module PowersOfTwo {

  function Pow2(k: nat): (r: nat)
    ensures r > 0
  {
    if k == 0 then 1 else 2 * Pow2(k - 1)
  }

  /** The index of the highest set bit. */
  function Log2(n: nat): (k: nat)
    requires n > 0
    ensures Pow2(k) <= n < Pow2(k + 1)
  {
    HighestBit(n, 0)
  }

  function HighestBit(n: nat, from: nat): (k: nat)
    requires Pow2(from) <= n
    ensures Pow2(k) <= n < Pow2(k + 1)
    decreases n - Pow2(from)
  {
    if n < Pow2(from + 1) then from else HighestBit(n, from + 1)
  }

  predicate IsPow2(n: nat) {
    n > 0 && n == Pow2(Log2(n))
  }

  lemma {:induction false} Pow2Monotone(a: nat, b: nat)
    requires a <= b
    ensures Pow2(a) <= Pow2(b)
    ensures a < b ==> 2 * Pow2(a) <= Pow2(b)
    decreases b - a
  {
    if a < b {
      Pow2Monotone(a + 1, b);
    }
  }

  lemma Log2OfPow2(k: nat)
    ensures Log2(Pow2(k)) == k
  {
    var j := Log2(Pow2(k));
    if j < k {
      Pow2Monotone(j + 1, k);
    } else if k < j {
      Pow2Monotone(k + 1, j);
    }
  }

  lemma Log2Monotone(a: nat, b: nat)
    requires 0 < a <= b
    ensures Log2(a) <= Log2(b)
  {
    if Log2(b) < Log2(a) {
      Pow2Monotone(Log2(b) + 1, Log2(a));
    }
  }

  /** Halving a power of two lowers its order by one. */
  lemma HalfOfPow2(n: nat)
    requires IsPow2(n) && n > 1
    ensures n == 2 * (n / 2) && IsPow2(n / 2) && Log2(n / 2) == Log2(n) - 1
  {
    PredecessorOrder(n, Log2(n));
    Log2OfPow2(Log2(n) - 1);
  }

  lemma DoubleOfPow2(m: nat, n: nat)
    requires 0 < m && n == 2 * m
    ensures IsPow2(n) ==> IsPow2(m)
    ensures IsPow2(m) ==> IsPow2(n)
    ensures IsPow2(m) ==> Log2(n) == Log2(m) + 1
  {
    if IsPow2(n) {
      HalfOfPow2(n);
    }
    if IsPow2(m) {
      var k := Log2(m);
      assert n == Pow2(k + 1);
      Log2OfPow2(k + 1);
    }
  }

  /** A power of two below another is at most half of it. */
  lemma SmallerPow2(m: nat, n: nat)
    requires IsPow2(m) && IsPow2(n) && m < n
    ensures 2 * m <= n && Log2(m) < Log2(n)
  {
    Log2Monotone(m, n);
    Pow2Monotone(Log2(m), Log2(n));
  }

  lemma PredecessorOrder(n: nat, k: nat)
    requires n == Pow2(k) && n > 1
    ensures k > 0 && n == 2 * Pow2(k - 1) && n / 2 == Pow2(k - 1)
  {
  }

  lemma {:induction false} Pow2Divides(a: nat, b: nat) returns (c: nat)
    requires a <= b
    ensures Pow2(b) == c * Pow2(a) && c > 0
    ensures a < b ==> c % 2 == 0
    decreases b - a
  {
    if a == b {
      c := 1;
    } else {
      var d := Pow2Divides(a, b - 1);
      c := 2 * d;
    }
  }

  lemma MultiplesApart(i: int, j: int, n: nat)
    requires i < j
    ensures i * n + n <= j * n
  {
    MulLessEq(i + 1, j, n);
    assert (i + 1) * n == i * n + n;
  }

  lemma MulLessEq(a: int, b: int, n: nat)
    requires a <= b
    ensures a * n <= b * n
  {
    var d := b - a;
    assert d * n >= 0;
    assert (a + d) * n == a * n + d * n;
  }

  lemma MulLess(a: int, b: int, n: nat)
    requires a * n < b * n
    ensures a < b
  {
    if a >= b {
      MulLessEq(b, a, n);
    }
  }

  lemma DivModUnique(x: int, n: nat, q: int, r: int)
    requires n > 0 && x == q * n + r && 0 <= r < n
    ensures x / n == q && x % n == r
  {
    var q', r' := x / n, x % n;
    assert x == q' * n + r';
    if q' < q {
      MultiplesApart(q', q, n);
    } else if q < q' {
      MultiplesApart(q, q', n);
    }
  }

  lemma MultipleMod(c: int, n: nat)
    requires n > 0
    ensures (c * n) % n == 0
  {
    DivModUnique(c * n, n, c, 0);
  }

  /** A multiple of a power of two is a multiple of every smaller one. */
  lemma AlignedDown(x: nat, a: nat, b: nat)
    requires a <= b && x % Pow2(b) == 0
    ensures x % Pow2(a) == 0
  {
    var c := Pow2Divides(a, b);
    var q := Quotient(x, Pow2(b));
    MulAssociative(q, c, Pow2(a));
    MultipleMod(q * c, Pow2(a));
  }

  lemma AlignedToLess(x: nat, n: nat, alignment: nat)
    requires IsPow2(n) && IsPow2(alignment) && alignment <= n && x % n == 0
    ensures x % alignment == 0
  {
    Log2Monotone(alignment, n);
    AlignedDown(x, Log2(alignment), Log2(n));
  }

  lemma MulAssociative(a: int, b: int, c: int)
    ensures a * (b * c) == (a * b) * c
  {
  }

  lemma Quotient(x: nat, n: nat) returns (q: nat)
    requires n > 0 && x % n == 0
    ensures x == q * n
  {
    q := x / n;
  }

  /** Two multiples of n that differ by less than n are equal. */
  lemma CloseMultiples(x: nat, y: nat, n: nat)
    requires n > 0 && x % n == 0 && y % n == 0 && x <= y < x + n
    ensures x == y
  {
    var i := Quotient(x, n);
    var j := Quotient(y, n);
    if i < j {
      MultiplesApart(i, j, n);
    } else if j < i {
      MultiplesApart(j, i, n);
    }
  }

  predicate Overlap(o1: nat, s1: nat, o2: nat, s2: nat) {
    o1 < o2 + s2 && o2 < o1 + s1
  }

  predicate Within(o1: nat, s1: nat, o2: nat, s2: nat) {
    o2 <= o1 && o1 + s1 <= o2 + s2
  }

  /** Aligned power-of-two intervals never partly overlap. */
  lemma Nested(o1: nat, k1: nat, o2: nat, k2: nat)
    requires k1 <= k2 && o1 % Pow2(k1) == 0 && o2 % Pow2(k2) == 0
    ensures !Overlap(o1, Pow2(k1), o2, Pow2(k2)) || Within(o1, Pow2(k1), o2, Pow2(k2))
  {
    AlignedDown(o2, k1, k2);
    var c := Pow2Divides(k1, k2);
    var i := Quotient(o1, Pow2(k1));
    var j := Quotient(o2, Pow2(k1));
    NestedMultiples(i, j, c, Pow2(k1));
  }

  lemma NestedMultiples(i: nat, j: nat, c: nat, n: nat)
    ensures !Overlap(i * n, n, j * n, c * n) || Within(i * n, n, j * n, c * n)
  {
    assert (j + c) * n == j * n + c * n;
    assert (i + 1) * n == i * n + n;
    if Overlap(i * n, n, j * n, c * n) {
      MulLess(i, j + c, n);
      MulLess(j, i + 1, n);
      MulLessEq(i + 1, j + c, n);
      MulLessEq(j, i, n);
    }
  }

  /** The two halves of an aligned block are aligned to half its size. */
  lemma HalvesAligned(o: nat, k: nat)
    requires k > 0 && o % Pow2(k) == 0
    ensures o % Pow2(k - 1) == 0 && (o + Pow2(k - 1)) % Pow2(k - 1) == 0
  {
    AlignedDown(o, k - 1, k);
    var n := Pow2(k - 1);
    var q := Quotient(o, n);
    assert o + n == (q + 1) * n;
    MultipleMod(q + 1, n);
  }

  /** The smallest power of two that is at least n. */
  function NextPowerOfTwo(n: nat): (r: nat)
    ensures IsPow2(r) && n <= r
    ensures forall k: nat :: n <= Pow2(k) ==> r <= Pow2(k)
  {
    if n <= 1 then
      Log2OfPow2(0);
      1
    else
      var k := Log2(n - 1) + 1;
      Log2OfPow2(k);
      assert forall j: nat :: n <= Pow2(j) ==> Pow2(k) <= Pow2(j) by {
        forall j: nat | n <= Pow2(j) ensures Pow2(k) <= Pow2(j) {
          if j < k { Pow2Monotone(j, k - 1); } else { Pow2Monotone(k, j); }
        }
      }
      Pow2(k)
  }

  /** Round a value or an address up to a multiple of the alignment. */
  function Align(value: nat, alignment: nat): (r: nat)
    requires alignment > 0
    ensures value <= r < value + alignment && r % alignment == 0
  {
    var q := (value + alignment - 1) / alignment;
    MultipleMod(q, alignment);
    q * alignment
  }

  /** Multiplication that the solver sees one step at a time. */
  function Times(n: nat, k: nat): (r: nat) {
    if k == 0 then 0 else Times(n, k - 1) + n
  }

  lemma {:induction false} TimesIsProduct(n: nat, k: nat)
    ensures Times(n, k) == n * k
  {
    if k > 0 {
      TimesIsProduct(n, k - 1);
      assert n * k == n * (k - 1) + n;
    }
  }

  lemma {:induction false} TimesApart(n: nat, i: nat, j: nat)
    requires i < j
    ensures Times(n, i) + n <= Times(n, j)
    decreases j
  {
    if i < j - 1 { TimesApart(n, i, j - 1); }
  }

  lemma {:induction false} TimesSplit(n: nat, i: nat, d: nat)
    ensures Times(n, i + d) == Times(n, i) + Times(n, d)
    decreases d
  {
    if d > 0 { TimesSplit(n, i, d - 1); }
  }
}
