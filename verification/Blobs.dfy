/** Field elements as blobs: sequences of 32-bit words, most significant word first. */
module Blobs {
  import opened Words
  import opened PowersOfTwo
  import opened BinaryPolynomials

  type Blob = seq<Word32>

  /** The polynomial a blob stands for. */
  function Value(s: Blob): nat {
    if s == [] then 0 else Value(s[..|s| - 1]) * WORD_SIZE + s[|s| - 1]
  }

  lemma ValueLast(s: Blob, w: Word32)
    ensures Value(s + [w]) == Value(s) * WORD_SIZE + w
  {
    assert (s + [w])[..|s|] == s;
  }

  lemma Pow2Words(n: nat)
    ensures Pow2(32 * (n + 1)) == Pow2(32 * n) * WORD_SIZE
    ensures Pow2(0) == 1
  {
    Pow2Sum(32 * n, 32);
    SmallPowers();
  }

  lemma {:induction false} ValueBound(s: Blob)
    ensures Value(s) < Pow2(32 * |s|)
  {
    hide Pow2;
    if s == [] {
      Pow2Words(0);
    } else {
      ValueBound(s[..|s| - 1]);
      Pow2Words(|s| - 1);
    }
  }

  lemma {:induction false} ValueConcat(s: Blob, t: Blob)
    ensures Value(s + t) == Value(s) * Pow2(32 * |t|) + Value(t)
  {
    hide Pow2;
    Pow2Words(if t == [] then 0 else |t| - 1);
    if t == [] {
      assert s + t == s;
    } else {
      var u, w := t[..|t| - 1], t[|t| - 1];
      ValueConcat(s, u);
      assert s + t == (s + u) + [w];
      ValueLast(s + u, w);
      hide Value;
      Associate(Value(s), Pow2(32 * |u|), WORD_SIZE);
      ValueSplitLast(t);
    }
  }

  lemma ValueSplitLast(t: Blob)
    requires t != []
    ensures Value(t) == Value(t[..|t| - 1]) * WORD_SIZE + t[|t| - 1]
  {}

  lemma ValueCons(w: Word32, s: Blob)
    ensures Value([w] + s) == w * Pow2(32 * |s|) + Value(s)
  {
    hide Value, Pow2;
    ValueConcat([w], s);
    ValueOne(w);
  }

  lemma ValueOne(w: Word32)
    ensures Value([w]) == w && Value([]) == 0
  {
    assert [w][..0] == [];
  }

  function WordXor(a: Word32, b: Word32): (c: Word32) {
    SmallPowers();
    XorBound(a, b, 32);
    Xor(a, b)
  }

  function BlobXor(a: Blob, b: Blob): (c: Blob)
    requires |a| == |b|
    ensures |c| == |a|
  {
    seq(|a|, i requires 0 <= i < |a| => WordXor(a[i], b[i]))
  }

  /** Adding blobs word by word adds the polynomials. */
  lemma {:induction false} BlobXorValue(a: Blob, b: Blob)
    requires |a| == |b|
    ensures Value(BlobXor(a, b)) == Xor(Value(a), Value(b))
  {
    hide Value, Xor, Pow2, BlobXor, WordXor;
    if a == [] {
      XorZero(0);
      BlobXorEmpty(a, b);
    } else {
      var n := |a| - 1;
      BlobXorValue(a[..n], b[..n]);
      BlobXorLast(a, b);
      ValueLast(BlobXor(a[..n], b[..n]), WordXor(a[n], b[n]));
      ValueSplitLast(a);
      ValueSplitLast(b);
      SmallPowers();
      XorConcat(Value(a[..n]), a[n], Value(b[..n]), b[n], 32);
    }
  }

  lemma BlobXorEmpty(a: Blob, b: Blob)
    requires a == b == []
    ensures Value(BlobXor(a, b)) == Value(a) == Value(b) == 0
  {}

  lemma BlobXorLast(a: Blob, b: Blob)
    requires |a| == |b| > 0
    ensures var n := |a| - 1;
      BlobXor(a, b) == BlobXor(a[..n], b[..n]) + [WordXor(a[n], b[n])] && WordXor(a[n], b[n]) == Xor(a[n], b[n])
  {
    hide Xor;
  }

  function Zeros(n: nat): (s: Blob)
    ensures |s| == n
  {
    seq(n, _ => 0)
  }

  lemma {:induction false} ZerosValue(n: nat)
    ensures Value(Zeros(n)) == 0
  {
    if n > 0 {
      ZerosValue(n - 1);
      assert Zeros(n)[..n - 1] == Zeros(n - 1);
    }
  }

  /** A blob whose low word is v and whose other words are zero. */
  function SmallBlob(n: nat, v: Word32): (s: Blob)
    requires n > 0
    ensures |s| == n
  {
    Zeros(n - 1) + [v]
  }

  lemma SmallBlobValue(n: nat, v: Word32)
    requires n > 0
    ensures Value(SmallBlob(n, v)) == v
  {
    ZerosValue(n - 1);
    ValueLast(Zeros(n - 1), v);
  }

  /** Only a blob below 2^32 has nothing above its low word. */
  lemma SmallBlobUnique(s: Blob)
    requires s != [] && Value(s) < WORD_SIZE
    ensures s == SmallBlob(|s|, s[|s| - 1]) && Value(s) == s[|s| - 1]
  {
    hide Value, Zeros;
    var u, w := s[..|s| - 1], s[|s| - 1];
    ValueSplitLast(s);
    NoHighPart(Value(u), w);
    ZeroValue(u);
    assert s == u + [w];
    NoProduct(w);
  }

  lemma NoProduct(w: nat)
    ensures 0 * WORD_SIZE + w == w
  {}

  lemma NoHighPart(a: nat, w: Word32)
    ensures a * WORD_SIZE + w < WORD_SIZE ==> a == 0
    ensures a * WORD_SIZE + w == 0 ==> a == 0 && w == 0
  {}

  lemma {:induction false} ZeroValue(s: Blob)
    ensures Value(s) == 0 ==> s == Zeros(|s|)
  {
    hide Value;
    if s != [] && Value(s) == 0 {
      var u := s[..|s| - 1];
      ValueSplitLast(s);
      NoHighPart(Value(u), s[|s| - 1]);
      ZeroValue(u);
      assert s == u + [s[|s| - 1]];
    }
  }
}
