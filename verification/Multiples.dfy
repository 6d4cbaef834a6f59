/** Multiples and quotients. */
module Multiples {
  lemma Monotone(x: nat, y: nat, k: nat)
    requires x <= y
    ensures x * k <= y * k
  {}

  lemma NextMultiple(n: nat, k: nat)
    ensures (n + 1) * k == n * k + k
  {}

  lemma QuotientOf(n: nat, k: nat, r: nat)
    requires r < k
    ensures (n * k + r) / k == n
  {
    var q := (n * k + r) / k;
    assert n * k + r == q * k + (n * k + r) % k;
    NextMultiple(n, k);
    NextMultiple(q, k);
    if q < n { Monotone(q + 1, n, k); } else if q > n { Monotone(n + 1, q, k); }
  }
}
