/** The permutation generators: the identity, and a shuffle from drawn positions with its inverse. */
module Permutations {
  import opened Parities

  /** Every draw for position i lies between i and the last position. */
  ghost predicate GoodDraws(draws: seq<nat>, n: nat) {
    |draws| >= n && forall i :: 0 <= i < n ==> i <= draws[i] < n
  }

  function Identity(n: nat): seq<nat> {
    seq(n, i requires 0 <= i < n => i)
  }

  /** The shuffle after the first k swaps. */
  function Shuffled(n: nat, draws: seq<nat>, k: nat): (s: seq<nat>)
    requires k <= n <= |draws| && forall i :: 0 <= i < n ==> i <= draws[i] < n
    ensures |s| == n
  {
    if k == 0 then Identity(n)
    else
      var s := Shuffled(n, draws, k - 1);
      var r := draws[k - 1];
      s[k - 1 := s[r]][r := s[k - 1]]
  }

  /** Swapping two places of a permutation swaps two values of its inverse. */
  lemma SwapInverses(s: seq<nat>, t: seq<nat>, n: nat, i: nat, r: nat)
    requires Inverses(s, t, n) && i < n && r < n
    ensures Inverses(s[i := s[r]][r := s[i]], t[s[r] := i][s[i] := r], n)
  {}

  lemma {:induction false} ShuffleHasInverse(n: nat, draws: seq<nat>, k: nat) returns (t: seq<nat>)
    requires GoodDraws(draws, n) && k <= n
    ensures Inverses(Shuffled(n, draws, k), t, n)
  {
    if k == 0 {
      t := Identity(n);
    } else {
      var s := Shuffled(n, draws, k - 1);
      var u := ShuffleHasInverse(n, draws, k - 1);
      SwapInverses(s, u, n, k - 1, draws[k - 1]);
      t := u[s[draws[k - 1]] := k - 1][s[k - 1] := draws[k - 1]];
    }
  }

  /** A swap leaves the places in front of it alone, and puts the drawn value in its own place. */
  lemma {:induction false} PlaceKept(n: nat, draws: seq<nat>, i: nat, k: nat)
    requires GoodDraws(draws, n) && i < k <= n
    ensures Shuffled(n, draws, k)[i] == Shuffled(n, draws, i)[draws[i]]
    decreases k
  {
    if i + 1 < k { PlaceKept(n, draws, i, k - 1); }
  }

  lemma {:induction false} ShuffledPrefix(n: nat, draws: seq<nat>, other: seq<nat>, k: nat)
    requires GoodDraws(draws, n) && GoodDraws(other, n) && k <= n && draws[..k] == other[..k]
    ensures Shuffled(n, draws, k) == Shuffled(n, other, k)
  {
    if k > 0 {
      assert draws[..k][k - 1] == other[..k][k - 1];
      assert draws[..k - 1] == draws[..k][..k - 1] == other[..k][..k - 1] == other[..k - 1];
      ShuffledPrefix(n, draws, other, k - 1);
    }
  }

  /** Different draws shuffle differently: every permutation comes from at most one choice of draws. */
  lemma {:induction false} ShuffleOnce(n: nat, draws: seq<nat>, other: seq<nat>, k: nat)
    requires GoodDraws(draws, n) && GoodDraws(other, n) && k <= n
    requires Shuffled(n, draws, n) == Shuffled(n, other, n)
    ensures draws[..k] == other[..k]
  {
    if k > 0 {
      var i := k - 1;
      ShuffleOnce(n, draws, other, i);
      ShuffledPrefix(n, draws, other, i);
      PlaceKept(n, draws, i, n);
      PlaceKept(n, other, i, n);
      var t := ShuffleHasInverse(n, draws, i);
      assert t[Shuffled(n, draws, i)[draws[i]]] == draws[i] && t[Shuffled(n, draws, i)[other[i]]] == other[i];
      assert draws[..k] == draws[..i] + [draws[i]] && other[..k] == other[..i] + [other[i]];
    }
  }

  lemma SamePrefix(s: seq<nat>, p: seq<nat>, i: nat)
    requires i <= |s| && i <= |p| && s[..i] == p[..i]
    ensures forall j :: 0 <= j < i ==> s[j] == p[j]
  {
    forall j | 0 <= j < i
      ensures s[j] == p[j]
    {
      assert s[j] == s[..i][j];
    }
  }

  /** A value that a permutation has at place i is not among the first i values. */
  lemma NotInPrefix(s: seq<nat>, p: seq<nat>, inv: seq<nat>, n: nat, i: nat, r: nat)
    requires Inverses(p, inv, n) && |s| == n && i < n && r < n && s[..i] == p[..i] && s[r] == p[i]
    ensures i <= r
  {
    SamePrefix(s, p, i);
    assert inv[p[r]] == r && inv[p[i]] == i;
  }

  /** Draws that have put the first k places of a permutation right, and stay in place from there on. */
  lemma {:induction false} DrawsFor(p: seq<nat>, inv: seq<nat>, n: nat, k: nat) returns (draws: seq<nat>)
    requires Inverses(p, inv, n) && k <= n
    ensures |draws| == n && GoodDraws(draws, n)
    ensures Shuffled(n, draws, k)[..k] == p[..k]
  {
    if k == 0 {
      draws := Identity(n);
    } else {
      var i := k - 1;
      var before := DrawsFor(p, inv, n, i);
      var s := Shuffled(n, before, i);
      var t := ShuffleHasInverse(n, before, i);
      var r := t[p[i]];
      NotInPrefix(s, p, inv, n, i, r);
      draws := before[i := r];
      assert draws[..i] == before[..i];
      ShuffledPrefix(n, draws, before, i);
      forall j | 0 <= j < k
        ensures Shuffled(n, draws, k)[j] == p[j]
      {
        if j < i { assert s[j] == s[..i][j] == p[..i][j]; }
      }
    }
  }

  /** Every permutation of the positions is the shuffle of exactly one choice of draws. */
  lemma ShuffleReachesAll(p: seq<nat>, inv: seq<nat>, n: nat) returns (draws: seq<nat>)
    requires Inverses(p, inv, n)
    ensures |draws| == n && GoodDraws(draws, n) && Shuffled(n, draws, n) == p
    ensures forall other :: |other| == n && GoodDraws(other, n) && Shuffled(n, other, n) == p ==> other == draws
  {
    draws := DrawsFor(p, inv, n, n);
    var s := Shuffled(n, draws, n);
    assert s == s[..n] && p == p[..n];
    forall other | |other| == n && GoodDraws(other, n) && Shuffled(n, other, n) == p
      ensures other == draws
    {
      ShuffleOnce(n, other, draws, n);
      assert other == other[..n] && draws == draws[..n];
    }
  }

  lemma InverseUnique(s: seq<nat>, t: seq<nat>, u: seq<nat>, n: nat)
    requires Inverses(s, t, n) && Inverses(s, u, n)
    ensures t == u
  {
    forall q | 0 <= q < n
      ensures t[q] == u[q]
    {
      assert s[t[q]] == q;
    }
  }

  method GenerateIdentityPermutation(n: nat) returns (perm: array<nat>, inv: array<nat>)
    ensures fresh(perm) && fresh(inv)
    ensures perm[..] == Identity(n) && Inverses(perm[..], inv[..], n)
  {
    perm, inv := new nat[n], new nat[n];
    for i := 0 to n
      invariant forall j :: 0 <= j < i ==> perm[j] == j && inv[j] == j
    {
      perm[i], inv[i] := i, i;
    }
  }

  /** Swap every position with the drawn one, then collect the inverse. */
  method GenerateRandomPermutation(n: nat, draws: seq<nat>) returns (perm: array<nat>, inv: array<nat>)
    requires GoodDraws(draws, n)
    ensures fresh(perm) && fresh(inv)
    ensures perm[..] == Shuffled(n, draws, n) && Inverses(perm[..], inv[..], n)
  {
    perm, inv := new nat[n], new nat[n];
    for i := 0 to n
      invariant forall j :: 0 <= j < i ==> perm[j] == j
    {
      perm[i] := i;
    }
    assert perm[..] == Shuffled(n, draws, 0);
    for i := 0 to n
      invariant perm[..] == Shuffled(n, draws, i)
    {
      var r := draws[i];
      perm[i], perm[r] := perm[r], perm[i];
    }
    ghost var t := ShuffleHasInverse(n, draws, n);
    ghost var s := perm[..];
    for i := 0 to n
      invariant perm[..] == s
      invariant forall j :: 0 <= j < i ==> inv[s[j]] == j
    {
      assert t[s[i]] == i;
      inv[perm[i]] := i;
    }
    forall q | 0 <= q < n
      ensures inv[q] == t[q]
    {
      assert s[t[q]] == q;
    }
    assert inv[..] == t;
  }
}
