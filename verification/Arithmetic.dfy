/** Counting, order of products, division, and steps on a ring of slots. */
module Arithmetic {
  function One(b: bool): nat { if b then 1 else 0 }

  lemma MulOrder(x: real, y: real, r: real)
    requires x <= y && 0.0 <= r
    ensures x * r <= y * r
  {
  }

  lemma DivAtLeastOne(a: int, b: int)
    requires 0 < b <= a
    ensures a / b >= 1
  {
  }

  lemma MulBound(d: int, n: int)
    requires 0 < n
    ensures d >= 1 ==> d * n >= n
    ensures d <= -1 ==> d * n <= -n
  {
  }

  lemma DivModUnique(x: int, q: int, r: int, n: int)
    requires 0 <= r < n && x == q * n + r
    ensures x / n == q && x % n == r
  {
    var q', r' := x / n, x % n;
    assert x == q' * n + r';
    assert (q - q') * n == r' - r;
    MulBound(q - q', n);
  }

  /** Going `d` slots ahead on the ring takes at most one turn of it. */
  lemma RingAdd(p: nat, d: nat, n: nat)
    requires p < n && d <= n
    ensures (p + d) % n == if p + d < n then p + d else p + d - n
  {
    if p + d < n {
      DivModUnique(p + d, 0, p + d, n);
    } else {
      DivModUnique(p + d, 1, p + d - n, n);
    }
  }
}
