/** Toeplitz hashing of a key by one number theoretic convolution. */
module PrivacyAmplification {
  import opened Words
  import opened Residues
  import opened PowersOfTwo
  import opened CyclicConvolutions
  import opened RootTables
  import opened Ntt

  const NO_LOG: Word32 := 0xFFFF_FFFF

  /** One halving: when any of the w bits above the lowest w is set (d is 2^w), shift them down and count w. */
  function Halve(p: (nat, nat), w: nat, d: nat): (r: (nat, nat))
    requires d > 0
  {
    if (p.0 / d) % d != 0 then (p.0 / d, p.1 + w) else p
  }

  /** The position of the highest set bit, found by halving the word five times. */
  function LdFloor(x: Word32): nat {
    if x == 0 then NO_LOG
    else Halve(Halve(Halve(Halve(Halve((x, 0), 16, 0x1_0000), 8, 0x100), 4, 0x10), 2, 4), 1, 2).1
  }

  function LdCeil(x: Word32): nat {
    if x == 0 then NO_LOG
    else
      var f := LdFloor(x);
      if Pow2(f) == x then f else f + 1
  }

  /** x is x0 shifted right by n places. */
  ghost predicate Shifted(x0: nat, x: nat, n: nat) {
    Pow2(n) * x <= x0 < Pow2(n) * (x + 1)
  }

  lemma Quotient(x: nat, d: nat)
    requires d > 0
    ensures d * (x / d) <= x < d * (x / d + 1)
  {}

  lemma ProductBound(p: nat, x: nat, y: nat)
    requires x <= y
    ensures p * x <= p * y
  {}

  lemma ShiftMore(x0: nat, x: nat, n: nat, w: nat, d: nat, q: nat)
    requires Shifted(x0, x, n) && d == Pow2(w)
    requires d * q <= x && x + 1 <= d * (q + 1)
    ensures Shifted(x0, q, n + w)
  {
    hide Pow2;
    Pow2Sum(n, w);
    ShiftNumbers(x0, x, Pow2(n), d, q);
  }

  lemma ShiftNumbers(x0: nat, x: nat, p: nat, d: nat, q: nat)
    requires p * x <= x0 < p * (x + 1)
    requires d * q <= x && x + 1 <= d * (q + 1)
    ensures (p * d) * q <= x0 < (p * d) * (q + 1)
  {
    var lo, hi := d * q, d * (q + 1);
    ProductBound(p, lo, x);
    ProductBound(p, x + 1, hi);
    Associate(p, d, q);
    Associate(p, d, q + 1);
  }

  lemma ShiftNone(x: nat)
    ensures Shifted(x, x, 0)
  {}

  lemma BelowSquare(x: nat, d: nat, q: nat)
    requires d > 0 && d * q <= x < d * d
    ensures q < d
  {
    if q >= d { ProductBound(d, d, q); }
  }

  lemma SmallRemainder(q: nat, d: nat)
    requires q < d
    ensures q % d == q
  {}

  lemma HalveShifts(x0: nat, p: (nat, nat), w: nat, d: nat, dd: nat)
    requires d == Pow2(w) && dd == d * d && 0 < p.0 < dd && Shifted(x0, p.0, p.1)
    ensures var r := Halve(p, w, d); 0 < r.0 < d && Shifted(x0, r.0, r.1) && p.1 <= r.1 <= p.1 + w
  {
    hide Shifted, Pow2;
    var q := p.0 / d;
    Quotient(p.0, d);
    BelowSquare(p.0, d, q);
    SmallRemainder(q, d);
    ShiftMore(x0, p.0, p.1, w, d, q);
  }

  /** LdFloor is the floor of the binary logarithm of every non-zero word. */
  lemma LdFloorIsLog(x: Word32)
    requires x > 0
    ensures LdFloor(x) < 32
    ensures Pow2(LdFloor(x)) <= x < 2 * Pow2(LdFloor(x))
  {
    hide Shifted, Pow2, Halve;
    SmallPowers();
    ShiftNone(x);
    var p0 := (x, 0);
    var p1 := Halve(p0, 16, 0x1_0000);
    var p2 := Halve(p1, 8, 0x100);
    var p3 := Halve(p2, 4, 0x10);
    var p4 := Halve(p3, 2, 4);
    HalveShifts(x, p0, 16, 0x1_0000, 0x1_0000_0000);
    HalveShifts(x, p1, 8, 0x100, 0x1_0000);
    HalveShifts(x, p2, 4, 0x10, 0x100);
    HalveShifts(x, p3, 2, 4, 0x10);
    HalveShifts(x, p4, 1, 2, 4);
    ShiftedOne(x, LdFloor(x));
  }

  lemma ShiftedOne(x0: nat, n: nat)
    requires Shifted(x0, 1, n)
    ensures Pow2(n) <= x0 < 2 * Pow2(n)
  {}

  /** LdCeil is the least k with x <= 2^k. */
  lemma LdCeilIsLog(x: Word32)
    requires x > 0
    ensures LdCeil(x) <= 32
    ensures x <= Pow2(LdCeil(x))
    ensures LdCeil(x) > 0 ==> Pow2(LdCeil(x) - 1) < x
  {
    hide LdFloor;
    LdFloorIsLog(x);
    var f := LdFloor(x);
    assert f > 0 ==> Pow2(f) == 2 * Pow2(f - 1);
    assert Pow2(f + 1) == 2 * Pow2(f);
  }

  /** The buffer of length 2^LdCeil(n) has room for one leading entry and n more unless n is a power of two. */
  lemma RoomUnlessPowerOfTwo(n: Word32)
    requires n > 0
    ensures 1 + n <= Pow2(LdCeil(n)) <==> forall k: nat :: n != Pow2(k)
  {
    LdCeilIsLog(n);
    var c := LdCeil(n);
    if n < Pow2(c) {
      forall k: nat
        ensures n != Pow2(k)
      {
        if k >= c { Pow2Monotone(c, k); } else { Pow2Monotone(k, c - 1); }
      }
    }
  }

  function Bit(b: bool): Residue {
    if b then 1 else 0
  }

  /** The bits of a big integer as array entries; the plain order starts at the highest bit. */
  function Spread(bits: seq<bool>, reverseOrder: bool): (s: seq<Residue>)
    ensures |s| == |bits|
  {
    seq(|bits|, i requires 0 <= i < |bits| => Bit(bits[if reverseOrder then i else |bits| - 1 - i]))
  }

  lemma SpreadEntry(bits: seq<bool>, reverseOrder: bool, i: nat)
    requires i < |bits|
    ensures Spread(bits, reverseOrder)[i] == Bit(bits[if reverseOrder then i else |bits| - 1 - i])
  {}

  /** The first i entries of s are written into o from position k on. */
  ghost predicate Written(r: seq<Residue>, o: seq<Residue>, k: nat, s: seq<Residue>, i: nat)
    requires i <= |s| && k + i <= |o|
  {
    && |r| == |o|
    && (forall x :: 0 <= x < |o| && !(k <= x < k + i) ==> r[x] == o[x])
    && (forall x :: k <= x < k + i ==> r[x] == s[x - k])
  }

  lemma WrittenNext(r: seq<Residue>, o: seq<Residue>, k: nat, s: seq<Residue>, i: nat, next: seq<Residue>)
    requires i < |s| && k + i < |o| && Written(r, o, k, s, i) && next == r[k + i := s[i]]
    ensures Written(next, o, k, s, i + 1)
  {}

  lemma WrittenAll(r: seq<Residue>, o: seq<Residue>, k: nat, s: seq<Residue>)
    requires k + |s| <= |o| && Written(r, o, k, s, |s|)
    ensures r == o[..k] + s + o[k + |s|..]
  {}

  /** Copy a big integer into part of an array. */
  method ModFromBigint(a: array<Residue>, offset: nat, bits: seq<bool>, reverseOrder: bool)
    requires offset + |bits| <= a.Length
    modifies a
    ensures var o := old(a[..]); a[..] == o[..offset] + Spread(bits, reverseOrder) + o[offset + |bits|..]
  {
    ghost var o, s := a[..], Spread(bits, reverseOrder);
    assert Written(a[..], o, offset, s, 0);
    hide Written, Spread;
    if !reverseOrder {
      var i, j := 0, |bits| - 1;
      while i < |bits|
        invariant i <= |bits| && j == |bits| - 1 - i
        invariant Written(a[..], o, offset, s, i)
      {
        SpreadEntry(bits, false, i);
        WrittenNext(a[..], o, offset, s, i, a[..][offset + i := s[i]]);
        a[offset + i] := Bit(bits[j]);
        i, j := i + 1, j - 1;
      }
    } else {
      var i := 0;
      while i < |bits|
        invariant i <= |bits|
        invariant Written(a[..], o, offset, s, i)
      {
        SpreadEntry(bits, true, i);
        WrittenNext(a[..], o, offset, s, i, a[..][offset + i := s[i]]);
        a[offset + i] := Bit(bits[i]);
        i := i + 1;
      }
    }
    WrittenAll(a[..], o, offset, s);
  }

  /**
   * Entry x of the padded Toeplitz row: a zero, the seed, the shift, zeros. A row as long as the array goes around
   * its end: its last bit stands in front.
   */
  ghost predicate RowBit(row: seq<bool>, x: nat, n: nat) {
    if x == 0 then |row| == n > 0 && row[n - 1] else x <= |row| && row[x - 1]
  }

  function Wrap(x: nat, n: nat): nat {
    if x < n then x else x - n
  }

  /** How many of the first k key bits meet a set bit of the cyclic row, shifted by i. */
  ghost function Hits(key: seq<bool>, row: seq<bool>, n: nat, i: nat, k: nat): (h: nat)
    requires k <= |key|
    ensures h <= k
  {
    if k == 0 then 0
    else Hits(key, row, n, i, k - 1) + if key[k - 1] && RowBit(row, Wrap(i + k, n), n) then 1 else 0
  }

  /** The exclusive or over u < k of key[u] AND row[i + u]. */
  ghost predicate Window(key: seq<bool>, row: seq<bool>, i: nat, k: nat)
    requires k <= |key| && (k > 0 ==> i + k <= |row|)
  {
    k > 0 && Window(key, row, i, k - 1) != (key[k - 1] && row[i + k - 1])
  }

  /** Without wrap-around, the parity of the hits is the window's exclusive or. */
  lemma {:induction false} HitsParity(key: seq<bool>, row: seq<bool>, n: nat, i: nat, k: nat)
    requires k <= |key| && |row| <= n && (k > 0 ==> i + k <= |row|)
    ensures (Hits(key, row, n, i, k) % 2 == 1) == Window(key, row, i, k)
  {
    if k > 0 { HitsParity(key, row, n, i, k - 1); }
  }

  /** The row as array entries. */
  ghost predicate RowLoaded(t: seq<Residue>, row: seq<bool>) {
    |row| <= |t| && forall x :: 0 <= x < |t| ==> t[x] == Bit(RowBit(row, x, |t|))
  }

  /** The key as array entries, its lowest bit last, behind zeros. */
  ghost predicate KeyLoaded(v: seq<Residue>, key: seq<bool>) {
    |key| <= |v| && forall x :: 0 <= x < |v| ==> v[x] == Bit(|v| - 1 - x < |key| && key[|v| - 1 - x])
  }

  /** The arrays handed to the convolution. */
  ghost predicate Loaded(t: seq<Residue>, v: seq<Residue>, key: seq<bool>, row: seq<bool>) {
    |t| == |v| && RowLoaded(t, row) && KeyLoaded(v, key)
  }

  lemma KeyEntries(v: seq<Residue>, key: seq<bool>, padding: nat)
    requires |v| == padding + |key| && v[padding..] == Spread(key, false)
    requires forall k :: 0 <= k < padding ==> v[k] == 0
    ensures KeyLoaded(v, key)
  {
    forall x | padding <= x < |v|
      ensures v[x] == Bit(key[|v| - 1 - x])
    {
      assert v[x] == v[padding..][x - padding];
    }
  }

  lemma LoadedBelowP(t: seq<Residue>, v: seq<Residue>, key: seq<bool>, row: seq<bool>)
    requires Loaded(t, v, key, row)
    ensures forall k :: 0 <= k < |t| ==> t[k] < P && v[k] < P
  {}

  /** The row is written behind the first entry, but for a last bit that has no room there. */
  lemma RowEntries(t: seq<Residue>, seed: seq<bool>, shift: seq<bool>, fitting: seq<bool>)
    requires |seed| + |shift| <= |t| && |seed| + |fitting| < |t|
    requires fitting == shift || (|seed| + |shift| == |t| && shift != [] && fitting == shift[..|shift| - 1])
    requires t[..1 + |seed| + |fitting|] == [t[0]] + Spread(seed, true) + Spread(fitting, true)
    requires t[0] == Bit(RowBit(seed + shift, 0, |t|))
    requires forall x :: |seed| + |fitting| < x < |t| ==> t[x] == 0
    ensures RowLoaded(t, seed + shift)
  {
    forall x | 0 < x <= |seed| + |fitting|
      ensures t[x] == Bit(RowBit(seed + shift, x, |t|))
    {
      assert t[x] == t[..1 + |seed| + |fitting|][x];
    }
  }

  /** The sum of the products with v running backwards from its end. */
  ghost function Backwards(t: seq<Residue>, v: seq<Residue>, i: nat, lo: nat, hi: nat): int
    requires |t| == |v| && i < |t| && lo <= hi <= |t|
  {
    if lo == hi then 0
    else Backwards(t, v, i, lo, hi - 1) + (t[Wrap(i + hi, |t|)] as int) * v[|t| - hi]
  }

  lemma {:induction false} BackwardsSplit(t: seq<Residue>, v: seq<Residue>, i: nat, lo: nat, mid: nat, hi: nat)
    requires |t| == |v| && i < |t| && lo <= mid <= hi <= |t|
    ensures Backwards(t, v, i, lo, hi) == Backwards(t, v, i, lo, mid) + Backwards(t, v, i, mid, hi)
    decreases hi
  {
    if mid < hi { BackwardsSplit(t, v, i, lo, mid, hi - 1); }
  }

  /** Summing over the row index instead of the key index only changes the order of the summands. */
  lemma {:induction false} Reindex(t: seq<Residue>, v: seq<Residue>, i: nat, k: nat)
    requires |t| == |v| && i < |t| && k <= |t|
    ensures var n := |t|;
      ConvSum(t, v, i, k) ==
        if k <= i + 1 then Backwards(t, v, i, n - 1 - i, n - 1 - i + k)
        else Backwards(t, v, i, n - 1 - i, n) + Backwards(t, v, i, 0, k - i - 1)
  {
    var n := |t|;
    if k > 0 {
      Reindex(t, v, i, k - 1);
      var s := k - 1;
      if s <= i {
        var hi := n - 1 - i + k;
        assert Wrap(i + hi, n) == s && n - hi == i - s;
      } else {
        var hi := k - i - 1;
        assert Wrap(i + hi, n) == s && n - hi == i - s + n;
        assert Backwards(t, v, i, 0, 0) == 0;
      }
    }
  }

  lemma BitProduct(a: bool, b: bool)
    ensures (Bit(a) as int) * Bit(b) == if a && b then 1 else 0
  {}

  lemma {:induction false} BackwardsHits(t: seq<Residue>, v: seq<Residue>, key: seq<bool>, row: seq<bool>,
                                         i: nat, k: nat)
    requires Loaded(t, v, key, row) && i < |t| && k <= |t|
    ensures Backwards(t, v, i, 0, k) == Hits(key, row, |t|, i, if k <= |key| then k else |key|)
  {
    if k > 0 {
      BackwardsHits(t, v, key, row, i, k - 1);
      assert v[|t| - k] == Bit(k <= |key| && key[k - 1]);
      BitProduct(RowBit(row, Wrap(i + k, |t|), |t|), k <= |key| && key[k - 1]);
    }
  }

  lemma Reordered(t: seq<Residue>, v: seq<Residue>, i: nat)
    requires |t| == |v| && i < |t|
    ensures Convolution(t, v)[i] == Backwards(t, v, i, 0, |t|)
  {
    hide Backwards, ConvSum;
    var n := |t|;
    Reindex(t, v, i, n);
    BackwardsSplit(t, v, i, 0, n - 1 - i, n);
  }

  /** Every convolution coefficient is the number of hits: too small to be reduced modulo P. */
  lemma CoefficientIsHits(t: seq<Residue>, v: seq<Residue>, key: seq<bool>, row: seq<bool>, i: nat)
    requires Loaded(t, v, key, row) && i < |t| && |t| < P
    ensures ConvolutionModP(t, v)[i] == Hits(key, row, |t|, i, |key|)
  {
    hide Backwards, Hits, Convolution, ConvolutionModP;
    Reordered(t, v, i);
    BackwardsHits(t, v, key, row, i, |t|);
    var h := Hits(key, row, |t|, i, |key|);
    ReducedEntry(t, v, i, h);
  }

  lemma ReducedEntry(t: seq<Residue>, v: seq<Residue>, i: nat, h: nat)
    requires |t| == |v| && i < |t| && Convolution(t, v)[i] == h < P
    ensures ConvolutionModP(t, v)[i] == h
  {
    hide Convolution;
    SmallRemainder(h, P);
  }

  lemma {:induction false} LengthBelowP(log2: nat)
    requires log2 < ORDER
    ensures Pow2(log2) < P
  {
    Pow2Monotone(log2, 27);
    Pow2Sum(16, 11);
    Pow2Sum(8, 3);
    SmallPowers();
  }

  /** One stretch written behind the first entry, and another one behind that. */
  lemma TwoParts(o: seq<Residue>, x: seq<Residue>, y: seq<Residue>, r: seq<Residue>)
    requires 1 + |x| + |y| <= |o|
    requires var t := o[..1] + x + o[1 + |x|..];
      r == t[..1 + |x|] + y + t[1 + |x| + |y|..]
    ensures r[0] == o[0] && r[..1 + |x| + |y|] == [o[0]] + x + y
  {}

  /**
   * The Toeplitz row, read backwards from index 0, in front of its zero padding. Without padding its last bit is
   * written in front, and once more behind the end of the array, where nothing is kept.
   */
  method FillToeplitz(a: array<Residue>, seed: seq<bool>, shift: seq<bool>)
    requires |seed| + |shift| <= a.Length && (shift == [] ==> |seed| < a.Length)
    modifies a
    ensures RowLoaded(a[..], seed + shift)
  {
    hide Spread, RowLoaded;
    var zeroPadding := a.Length - (|seed| + |shift|);
    a[0] := if zeroPadding > 0 then 0 else Bit(shift[|shift| - 1]);
    ghost var o := a[..];
    var fitting := if zeroPadding > 0 then shift else shift[..|shift| - 1];
    ModFromBigint(a, 1, seed, true);
    ModFromBigint(a, |seed| + 1, fitting, true);
    TwoParts(o, Spread(seed, true), Spread(fitting, true), a[..]);
    ClearFrom(a, |seed| + |fitting| + 1);
    RowEntries(a[..], seed, shift, fitting);
  }

  method ClearFrom(a: array<Residue>, n: nat)
    requires n <= a.Length
    modifies a
    ensures a[..n] == old(a[..n]) && forall k :: n <= k < a.Length ==> a[k] == 0
  {
    var i := n;
    while i < a.Length
      invariant n <= i <= a.Length
      invariant a[..n] == old(a[..n])
      invariant forall k :: n <= k < i ==> a[k] == 0
    {
      a[i] := 0;
      i := i + 1;
    }
  }

  /** The key in plain order behind its zero padding. */
  method FillInput(a: array<Residue>, key: seq<bool>, padding: nat)
    requires padding + |key| == a.Length
    modifies a
    ensures KeyLoaded(a[..], key)
  {
    hide KeyLoaded, Spread;
    var i := 0;
    while i < padding
      invariant i <= padding
      invariant forall k :: 0 <= k < i ==> a[k] == 0
    {
      a[i] := 0;
      i := i + 1;
    }
    ModFromBigint(a, padding, key, false);
    KeyEntries(a[..], key, padding);
  }

  /**
   * The privacy amplification hash. The bits hashed are those of the result key as passed in; the input key
   * only determines the padding.
   */
  method Perform(key: seq<bool>, input: seq<bool>, seed: seq<bool>, shift: seq<bool>) returns (out: seq<bool>)
    requires |key| == |input|
    requires 0 < |seed| + |shift| < 0x1_0000_0000
    requires LdCeil(|seed| + |shift|) < ORDER
    requires |input| <= Pow2(LdCeil(|seed| + |shift|)) && (shift == [] ==> |seed| < Pow2(LdCeil(|seed|)))
    ensures |out| == |shift|
    ensures forall i :: 0 <= i < |shift| ==>
      out[i] == (Hits(key, seed + shift, Pow2(LdCeil(|seed| + |shift|)), i, |key|) % 2 == 1)
    ensures |key| == |seed| ==> forall i :: 0 <= i < |shift| ==> out[i] == Window(key, seed + shift, i, |key|)
  {
    LdCeilIsLog(|seed| + |shift|);
    hide LdCeil, Pow2, ConvolutionModP, Hits, Window, RowLoaded, KeyLoaded;
    var nextLog2 := LdCeil(|seed| + |shift|);
    var length := Pow2(nextLog2);
    var zeroPaddingInput := length - |input|;
    var toeplitz, data := new Residue[length], new Residue[length];
    FillToeplitz(toeplitz, seed, shift);
    FillInput(data, key, zeroPaddingInput);
    ghost var t, v, row := toeplitz[..], data[..], seed + shift;
    LoadedBelowP(t, v, key, row);
    LengthBelowP(nextLog2);
    NttConvolution(toeplitz, data, nextLog2);
    out := LowBits(toeplitz, |shift|);
    OutputBits(t, v, key, seed, shift, out);
  }

  /** The final bits, from the front of the array. */
  method LowBits(a: array<Residue>, count: nat) returns (out: seq<bool>)
    requires count <= a.Length
    ensures |out| == count && forall k :: 0 <= k < count ==> out[k] == (a[..][k] % 2 != 0)
  {
    out := seq(count, _ => false);
    var i := 0;
    while i < count
      invariant i <= count == |out|
      invariant forall k :: 0 <= k < i ==> out[k] == (a[k] % 2 != 0)
    {
      out := out[i := a[i] % 2 != 0];
      i := i + 1;
    }
  }

  /** The low bits of the first coefficients are the output. */
  lemma OutputBits(t: seq<Residue>, v: seq<Residue>, key: seq<bool>, seed: seq<bool>, shift: seq<bool>, out: seq<bool>)
    requires Loaded(t, v, key, seed + shift) && |out| == |shift| <= |t| < P
    requires forall i :: 0 <= i < |out| ==> out[i] == (ConvolutionModP(t, v)[i] % 2 != 0)
    ensures forall i :: 0 <= i < |shift| ==> out[i] == (Hits(key, seed + shift, |t|, i, |key|) % 2 == 1)
    ensures |key| == |seed| ==> forall i :: 0 <= i < |shift| ==> out[i] == Window(key, seed + shift, i, |key|)
  {
    hide ConvolutionModP, Hits, Window, RowLoaded, KeyLoaded;
    RowFits(t, seed + shift);
    forall i | 0 <= i < |shift|
      ensures out[i] == (Hits(key, seed + shift, |t|, i, |key|) % 2 == 1)
    {
      CoefficientIsHits(t, v, key, seed + shift, i);
    }
    if |key| == |seed| {
      forall i | 0 <= i < |shift|
        ensures out[i] == Window(key, seed + shift, i, |key|)
      {
        AmplifiedBit(key, seed, shift, |t|, i);
      }
    }
  }

  lemma RowFits(t: seq<Residue>, row: seq<bool>)
    requires RowLoaded(t, row)
    ensures |row| <= |t|
  {}

  /** With a seed as long as the key, output bit i is the exclusive or of the key masked by a sliding window. */
  lemma AmplifiedBit(key: seq<bool>, seed: seq<bool>, shift: seq<bool>, n: nat, i: nat)
    requires |key| == |seed| && |seed| + |shift| <= n && i < |shift|
    ensures (Hits(key, seed + shift, n, i, |key|) % 2 == 1) == Window(key, seed + shift, i, |key|)
  {
    HitsParity(key, seed + shift, n, i, |key|);
  }
}
