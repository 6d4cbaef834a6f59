/** Parities of stretches of a bit sequence, and how permutations and single flips change them. */
module Parities {
  import opened PowersOfTwo

  /** The exclusive or of the bits lo, lo + 1, ..., hi - 1. */
  function Par(s: seq<bool>, lo: nat, hi: nat): bool
    requires hi <= |s|
  {
    if hi <= lo then false else Par(s, lo, hi - 1) != s[hi - 1]
  }

  lemma {:induction false} ParSplit(s: seq<bool>, lo: nat, mid: nat, hi: nat)
    requires lo <= mid <= hi <= |s|
    ensures Par(s, lo, hi) == (Par(s, lo, mid) != Par(s, mid, hi))
  {
    if mid < hi { ParSplit(s, lo, mid, hi - 1); }
  }

  lemma {:induction false} ParFlip(s: seq<bool>, q: nat, lo: nat, hi: nat)
    requires q < |s| && hi <= |s|
    ensures Par(s[q := !s[q]], lo, hi) == (Par(s, lo, hi) != (lo <= q < hi))
  {
    if lo < hi { ParFlip(s, q, lo, hi - 1); }
  }

  lemma {:induction false} ParPrefix(s: seq<bool>, t: seq<bool>, lo: nat, hi: nat)
    requires hi <= |s| && hi <= |t| && forall q :: lo <= q < hi ==> s[q] == t[q]
    ensures Par(s, lo, hi) == Par(t, lo, hi)
  {
    if lo < hi { ParPrefix(s, t, lo, hi - 1); }
  }

  lemma {:induction false} ParFalse(s: seq<bool>, lo: nat, hi: nat)
    requires hi <= |s| && forall q :: lo <= q < hi ==> !s[q]
    ensures !Par(s, lo, hi)
  {
    if lo < hi { ParFalse(s, lo, hi - 1); }
  }

  function Xors(x: seq<bool>, y: seq<bool>): (d: seq<bool>)
    requires |x| == |y|
    ensures |d| == |x| && forall i :: 0 <= i < |x| ==> d[i] == (x[i] != y[i])
  {
    seq(|x|, i requires 0 <= i < |x| => x[i] != y[i])
  }

  lemma {:induction false} ParXors(x: seq<bool>, y: seq<bool>, lo: nat, hi: nat)
    requires |x| == |y| && hi <= |x|
    ensures Par(Xors(x, y), lo, hi) == (Par(x, lo, hi) != Par(y, lo, hi))
  {
    if lo < hi { ParXors(x, y, lo, hi - 1); }
  }

  /** perm and inv are permutations of 0, 1, ..., n - 1, each the inverse of the other. */
  ghost predicate Inverses(perm: seq<nat>, inv: seq<nat>, n: nat) {
    && |perm| == n && |inv| == n
    && (forall p :: 0 <= p < n ==> perm[p] < n && inv[perm[p]] == p)
    && (forall q :: 0 <= q < n ==> inv[q] < n && perm[inv[q]] == q)
  }

  /** The bits in the order in which a checker looks at them. */
  function Permuted(s: seq<bool>, inv: seq<nat>): (t: seq<bool>)
    requires |inv| == |s| && forall q :: 0 <= q < |s| ==> inv[q] < |s|
    ensures |t| == |s| && forall q :: 0 <= q < |s| ==> t[q] == s[inv[q]]
  {
    seq(|s|, q requires 0 <= q < |s| => s[inv[q]])
  }

  lemma PermutedFlip(s: seq<bool>, perm: seq<nat>, inv: seq<nat>, p: nat)
    requires Inverses(perm, inv, |s|) && p < |s|
    ensures Permuted(s[p := !s[p]], inv) == var t := Permuted(s, inv); t[perm[p] := !t[perm[p]]]
  {}

  lemma PermutedXors(x: seq<bool>, y: seq<bool>, inv: seq<nat>)
    requires |x| == |y| == |inv| && forall q :: 0 <= q < |x| ==> inv[q] < |x|
    ensures Permuted(Xors(x, y), inv) == Xors(Permuted(x, inv), Permuted(y, inv))
  {}

  /** How many bits are set. */
  function Weight(s: seq<bool>): (w: nat)
    ensures w <= |s|
  {
    if s == [] then 0 else Weight(s[..|s| - 1]) + if s[|s| - 1] then 1 else 0
  }

  lemma {:induction false} WeightClear(s: seq<bool>, p: nat)
    requires p < |s| && s[p]
    ensures Weight(s[p := false]) + 1 == Weight(s)
    decreases |s|
  {
    var l := |s| - 1;
    if p < l {
      WeightClear(s[..l], p);
      assert s[p := false][..l] == s[..l][p := false];
    } else {
      assert s[p := false][..l] == s[..l];
    }
  }

  lemma {:induction false} WeightParity(s: seq<bool>, n: nat)
    requires n <= |s|
    ensures Par(s, 0, n) == (Weight(s[..n]) % 2 == 1)
  {
    if n > 0 {
      WeightParity(s, n - 1);
      assert s[..n][..n - 1] == s[..n - 1];
    }
  }

  /** How many elements of a set lie in a stretch: the distance between its two lower bounds. */
  function CountIn(s: set<nat>, lo: nat, hi: nat): nat {
    |set q | q in s && lo <= q < hi|
  }

  lemma CountNone(s: set<nat>, lo: nat)
    ensures CountIn(s, lo, lo) == 0
  {
    assert (set q | q in s && lo <= q < lo) == {};
  }

  lemma CountNext(s: set<nat>, lo: nat, hi: nat)
    requires lo <= hi
    ensures CountIn(s, lo, hi + 1) == CountIn(s, lo, hi) + if hi in s then 1 else 0
  {
    var x, y := set q | q in s && lo <= q < hi, set q | q in s && lo <= q < hi + 1;
    if hi in s {
      assert y == x + {hi};
    } else {
      assert y == x;
    }
  }

  /** A stretch is counted in full exactly when all of it is in the set. */
  lemma {:induction false} CountFull(s: set<nat>, lo: nat, hi: nat)
    requires lo <= hi
    ensures CountIn(s, lo, hi) <= hi - lo
    ensures CountIn(s, lo, hi) == hi - lo <==> forall q :: lo <= q < hi ==> q in s
  {
    hide CountIn;
    if lo == hi {
      CountNone(s, lo);
    } else {
      CountFull(s, lo, hi - 1);
      CountNext(s, lo, hi - 1);
    }
  }

  /** The least exponent whose power of two is no smaller, as the number of times a block can be halved. */
  function CeilLog(s: nat): nat {
    if s <= 1 then 0 else 1 + CeilLog((s + 1) / 2)
  }

  /** So it is the logarithm to base two, rounded up. */
  lemma {:induction false} CeilLogIsLog(s: nat)
    requires s >= 1
    ensures s <= Pow2(CeilLog(s)) && (s > 1 ==> Pow2(CeilLog(s) - 1) < s)
  {
    if s > 1 {
      CeilLogIsLog((s + 1) / 2);
      if s > 2 { assert (s + 1) / 2 > 1; }
    }
  }

  lemma {:induction false} CeilLogMonotone(s: nat, t: nat)
    requires s <= t
    ensures CeilLog(s) <= CeilLog(t)
    decreases t
  {
    if s > 1 { CeilLogMonotone((s + 1) / 2, (t + 1) / 2); }
  }

  /** The least number of halvings that leave a single bit, when it is always in the smaller half. */
  function FloorLog(s: nat): nat {
    if s <= 1 then 0 else 1 + FloorLog(s / 2)
  }

  /** It is the logarithm to base two, rounded down. */
  lemma {:induction false} FloorLogIsLog(s: nat)
    requires s >= 1
    ensures Pow2(FloorLog(s)) <= s < 2 * Pow2(FloorLog(s))
  {
    if s > 1 { FloorLogIsLog(s / 2); }
  }

  lemma {:induction false} FloorLogMonotone(s: nat, t: nat)
    requires s <= t
    ensures FloorLog(s) <= FloorLog(t)
    decreases t
  {
    if s > 1 { FloorLogMonotone(s / 2, t / 2); }
  }

  function Ones(s: seq<bool>): set<nat> {
    set i: nat | i < |s| && s[i]
  }

  lemma {:induction false} WeightIsSize(s: seq<bool>)
    ensures Weight(s) == |Ones(s)|
    decreases |s|
  {
    if s != [] {
      var l := |s| - 1;
      WeightIsSize(s[..l]);
      assert Ones(s) == if s[l] then Ones(s[..l]) + {l} else Ones(s[..l]);
    }
  }

  lemma {:induction false} ImageSize(ps: set<nat>, perm: seq<nat>, inv: seq<nat>)
    requires Inverses(perm, inv, |perm|) && forall p :: p in ps ==> p < |perm|
    ensures |set p | p in ps :: perm[p]| == |ps|
  {
    var image := set p | p in ps :: perm[p];
    if ps == {} {
      assert image == {};
    } else {
      var x :| x in ps;
      var rest := ps - {x};
      var small := set p | p in rest :: perm[p];
      ImageSize(rest, perm, inv);
      assert perm[x] !in small;
      assert image == small + {perm[x]} && ps == rest + {x};
    }
  }

  /** A permutation keeps the number of set bits. */
  lemma PermutedWeight(s: seq<bool>, perm: seq<nat>, inv: seq<nat>)
    requires Inverses(perm, inv, |s|)
    ensures Weight(Permuted(s, inv)) == Weight(s)
  {
    hide Weight;
    WeightIsSize(s);
    WeightIsSize(Permuted(s, inv));
    ImageSize(Ones(s), perm, inv);
    assert Ones(Permuted(s, inv)) == set p | p in Ones(s) :: perm[p] by {
      forall q: nat | q < |s|
        ensures q in Ones(Permuted(s, inv)) <==> q in set p | p in Ones(s) :: perm[p]
      {
        assert perm[inv[q]] == q;
      }
    }
  }

  /** The parity of all bits is that of their number, in any order. */
  lemma WholeParity(s: seq<bool>, perm: seq<nat>, inv: seq<nat>)
    requires Inverses(perm, inv, |s|)
    ensures Par(Permuted(s, inv), 0, |s|) == (Weight(s) % 2 == 1)
  {
    hide Weight, Par;
    var t := Permuted(s, inv);
    PermutedWeight(s, perm, inv);
    WeightParity(t, |t|);
    assert t[..|t|] == t;
  }
}
