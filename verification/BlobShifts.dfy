/** Left shifts of a blob, word by word and in place, with the bits that leave it kept in an overflow blob. */
module BlobShifts {
  import opened Words
  import opened PowersOfTwo
  import opened BinaryPolynomials
  import opened Blobs

  lemma WordSplit(w: Word32, b: nat)
    requires 0 < b < 32
    ensures var p, q := Pow2(b), Pow2(32 - b);
      && q * p == WORD_SIZE
      && w == (w / q) * q + w % q && w / q < p
      && (w * p) % WORD_SIZE == (w % q) * p < WORD_SIZE
  {
    var p, q := Pow2(b), Pow2(32 - b);
    Pow2Sum(32 - b, b);
    SmallPowers();
    SplitNumbers(w, p, q);
  }

  lemma SplitNumbers(w: nat, p: nat, q: nat)
    requires p >= 1 && q >= 1 && q * p == WORD_SIZE && w < WORD_SIZE
    ensures w == (w / q) * q + w % q && w / q < p
    ensures (w * p) % WORD_SIZE == (w % q) * p < WORD_SIZE
  {
    var h, l := w / q, w % q;
    assert w == h * q + l;
    HighPart(h, l, p, q);
    LowPart(h, l, p, q);
  }

  lemma HighPart(h: nat, l: nat, p: nat, q: nat)
    requires q * p == WORD_SIZE && h * q + l < WORD_SIZE
    ensures h < p
  {
    if h >= p { ProductAtLeast(h, p, q); }
  }

  lemma ProductAtLeast(x: nat, y: nat, q: nat)
    requires x >= y
    ensures x * q >= y * q
  {
  }

  lemma LowPart(h: nat, l: nat, p: nat, q: nat)
    requires q * p == WORD_SIZE && l < q && p >= 1
    ensures ((h * q + l) * p) % WORD_SIZE == l * p < WORD_SIZE
  {
    assert (h * q + l) * p == h * (q * p) + l * p;
    assert l * p < q * p;
    RemainderOf(h, l * p);
  }

  lemma RemainderOf(h: nat, r: nat)
    requires r < WORD_SIZE
    ensures (h * WORD_SIZE + r) % WORD_SIZE == r
  {}

  /** One word of the sub-word shift: the low part moves up, the carry comes in, the high part goes out. */
  function ShiftedWord(w: Word32, b: nat, carry: nat): (r: Word32)
    requires 0 < b < 32 && carry < Pow2(b)
    ensures r == (w % Pow2(32 - b)) * Pow2(b) + carry
  {
    WordSplit(w, b);
    Pow2Sum(32 - b, b);
    SmallPowers();
    XorDisjoint(w % Pow2(32 - b), carry, b);
    XorWord((w * Pow2(b)) % WORD_SIZE, w % Pow2(32 - b), b, carry);
    Xor((w * Pow2(b)) % WORD_SIZE, carry)
  }

  lemma XorWord(x: nat, l: nat, b: nat, carry: nat)
    requires 0 < b < 32 && carry < Pow2(b) && x == l * Pow2(b) < WORD_SIZE && l < Pow2(32 - b)
    ensures Xor(x, carry) == x + carry < WORD_SIZE
  {
    XorDisjoint(l, carry, b);
    Pow2Sum(32 - b, b);
    SmallPowers();
    WordRoom(l, Pow2(b), Pow2(32 - b), carry);
  }

  lemma WordRoom(l: nat, p: nat, q: nat, c: nat)
    requires c < p && l < q && q * p == WORD_SIZE
    ensures l * p + c < WORD_SIZE
  {
    assert (l + 1) * p <= q * p;
  }

  /** The words not yet shifted are old; the others with the carry are the old ones times 2^b. */
  ghost predicate SubbitsDone(o: Blob, x: Blob, b: nat, k: nat, carry: nat) {
    && 0 < b < 32 && k <= |o| == |x| && carry < Pow2(b)
    && x[..k] == o[..k]
    && Value(x[k..]) + carry * Pow2(32 * (|o| - k)) == Value(o[k..]) * Pow2(b)
  }

  lemma SubbitsNumbers(w: nat, h: nat, l: nat, c: nat, d: nat, v: nat, v0: nat, p: nat, q: nat)
    requires q * p == WORD_SIZE && w == h * q + l && v + c * d == v0 * p
    ensures ((l * p + c) * d + v) + h * (d * WORD_SIZE) == (w * d + v0) * p
  {
    calc {
      (w * d + v0) * p;
      (w * d) * p + v0 * p;
      { assert (w * d) * p == (w * p) * d; }
      (w * p) * d + (v + c * d);
      { assert w * p == h * (q * p) + l * p; }
      (h * WORD_SIZE + l * p) * d + (v + c * d);
      (h * WORD_SIZE) * d + (l * p) * d + (v + c * d);
      { assert (h * WORD_SIZE) * d == h * (d * WORD_SIZE); }
      h * (d * WORD_SIZE) + ((l * p) * d + c * d) + v;
      { assert (l * p) * d + c * d == (l * p + c) * d; }
      ((l * p + c) * d + v) + h * (d * WORD_SIZE);
    }
  }

  lemma SubbitsStep(o: Blob, x: Blob, y: Blob, b: nat, k: nat, carry: nat, newCarry: nat)
    requires k < |o| == |x| && 0 < b < 32 && carry < Pow2(b)
    requires newCarry == x[k] / Pow2(32 - b)
    requires y == x[k := ShiftedWord(x[k], b, carry)]
    requires SubbitsDone(o, x, b, k + 1, carry)
    ensures SubbitsDone(o, y, b, k, newCarry)
  {
    hide ShiftedWord, Value, Pow2;
    var w, p, q := x[k], Pow2(b), Pow2(32 - b);
    var d := Pow2(32 * (|o| - k - 1));
    WordSplit(w, b);
    assert x[..k + 1][k] == o[..k + 1][k];
    assert y[k..] == [y[k]] + x[k + 1..] && o[k..] == [w] + o[k + 1..];
    ValueCons(y[k], x[k + 1..]);
    ValueCons(w, o[k + 1..]);
    Pow2Words(|o| - k - 1);
    SubbitsNumbers(w, w / q, w % q, carry, d, Value(x[k + 1..]), Value(o[k + 1..]), p, q);
    assert y[..k] == x[..k + 1][..k] == o[..k + 1][..k] == o[..k];
  }

  /** Shift by less than a word, in place; returns the bits shifted out. */
  method BlobShiftLeftSubbits(blob: array<Word32>, bits: nat) returns (carry: Word32)
    requires 0 < bits < 32
    modifies blob
    ensures carry < Pow2(bits)
    ensures Value(blob[..]) + carry * Pow2(32 * blob.Length) == Value(old(blob[..])) * Pow2(bits)
  {
    hide SubbitsDone, ShiftedWord, Value, Pow2;
    ghost var o := blob[..];
    carry := 0;
    var antibits := WORD_BITS - bits;
    SubbitsStart(o, bits);
    var i := blob.Length;
    while i > 0
      invariant 0 <= i <= blob.Length == |o|
      invariant SubbitsDone(o, blob[..], bits, i, carry)
    {
      i := i - 1;
      ghost var x := blob[..];
      WordSplit(blob[i], bits);
      CarryBound(o, x, bits, i + 1, carry);
      var newCarry := blob[i] / Pow2(antibits);
      NewCarryWord(newCarry, bits);
      blob[i] := ShiftedWord(blob[i], bits, carry);
      SubbitsStep(o, x, blob[..], bits, i, carry, newCarry);
      carry := newCarry;
    }
    SubbitsEnd(o, blob[..], bits, carry);
  }

  lemma CarryBound(o: Blob, x: Blob, b: nat, k: nat, carry: nat)
    requires SubbitsDone(o, x, b, k, carry)
    ensures carry < Pow2(b)
  {}

  lemma NewCarryWord(c: nat, b: nat)
    requires 0 < b < 32 && c < Pow2(b)
    ensures c < WORD_SIZE
  {
    Pow2Monotone(b, 32);
    SmallPowers();
  }

  lemma SubbitsStart(o: Blob, b: nat)
    requires 0 < b < 32
    ensures SubbitsDone(o, o, b, |o|, 0)
  {
    assert o[|o|..] == [];
  }

  lemma SubbitsEnd(o: Blob, x: Blob, b: nat, carry: nat)
    requires SubbitsDone(o, x, b, 0, carry)
    ensures carry < Pow2(b)
    ensures Value(x) + carry * Pow2(32 * |x|) == Value(o) * Pow2(b)
  {
    assert x[0..] == x && o[0..] == o;
  }

  method BlobClear(blob: array<Word32>)
    modifies blob
    ensures blob[..] == Zeros(blob.Length)
  {
    var i := 0;
    while i < blob.Length
      invariant i <= blob.Length && forall k :: 0 <= k < i ==> blob[k] == 0
    {
      blob[i] := 0;
      i := i + 1;
    }
  }

  lemma ZerosPart(n: nat, k: nat)
    requires k <= n
    ensures Zeros(n)[..k] == Zeros(k)
  {}

  /** The first words go to the low words of the cleared overflow. */
  method BlobMoveOut(blob: array<Word32>, overflow: array<Word32>, words: nat)
    requires blob != overflow && blob.Length == overflow.Length && words <= blob.Length
    modifies overflow
    ensures overflow[..] == Zeros(blob.Length - words) + blob[..words]
  {
    hide Zeros;
    var n := blob.Length;
    var src: nat, dst: int := 0, -(words as int);
    BlobClear(overflow);
    ZerosPart(n, n - words);
    while dst < 0
      invariant 0 <= src <= words && dst == src - words
      invariant overflow[..n - words] == Zeros(n - words)
      invariant overflow[n - words..n - words + src] == blob[..src]
    {
      overflow[n + dst] := blob[src];
      dst, src := dst + 1, src + 1;
    }
    assert overflow[..] == overflow[..n - words] + overflow[n - words..n];
  }

  /** The remaining words move up and zeros are shifted in. */
  method BlobMoveUp(blob: array<Word32>, words: nat)
    requires words <= blob.Length
    modifies blob
    ensures blob[..] == old(blob[..])[words..] + Zeros(words)
  {
    hide Zeros;
    ghost var o := blob[..];
    var n := blob.Length;
    var src, dst := words, 0;
    while src < n
      invariant words <= src <= n && dst == src - words
      invariant blob[..dst] == o[words..src]
      invariant blob[src..] == o[src..]
    {
      assert blob[src] == blob[src..][0] == o[src];
      blob[dst] := blob[src];
      dst, src := dst + 1, src + 1;
    }
    ZerosGrow(0);
    while dst < n
      invariant n - words <= dst <= n
      invariant blob[..dst] == o[words..] + Zeros(dst - (n - words))
    {
      ZerosGrow(dst - (n - words));
      blob[dst] := 0;
      dst := dst + 1;
    }
    assert blob[..n] == blob[..];
  }

  /** Shift by whole words, in place; the words shifted out land in the low words of the overflow. */
  method BlobShiftLeftWords(blob: array<Word32>, overflow: array<Word32>, words: nat)
    requires blob != overflow && blob.Length == overflow.Length && words <= blob.Length
    modifies blob, overflow
    ensures blob[..] == old(blob[..])[words..] + Zeros(words)
    ensures overflow[..] == Zeros(blob.Length - words) + old(blob[..])[..words]
  {
    hide Zeros;
    BlobMoveOut(blob, overflow, words);
    BlobMoveUp(blob, words);
  }

  lemma ZerosGrow(n: nat)
    ensures Zeros(0) == [] && Zeros(n + 1) == Zeros(n) + [0]
  {}

  lemma WordsShifted(o: Blob, words: nat)
    requires words <= |o|
    ensures Value(o) * Pow2(32 * words)
         == Value(o[words..] + Zeros(words)) + Value(Zeros(|o| - words) + o[..words]) * Pow2(32 * |o|)
    ensures Value(Zeros(|o| - words) + o[..words]) < Pow2(32 * words)
  {
    hide Value, Pow2, Zeros;
    var hi, lo := o[..words], o[words..];
    assert o == hi + lo;
    ValueConcat(hi, lo);
    ValueConcat(lo, Zeros(words));
    ValueConcat(Zeros(|o| - words), hi);
    ZerosValue(words);
    ZerosValue(|o| - words);
    ValueBound(hi);
    Pow2Sum(32 * (|o| - words), 32 * words);
    assert 32 * (|o| - words) + 32 * words == 32 * |o|;
    Regroup(Value(hi), Pow2(32 * |lo|), Value(lo), Pow2(32 * words));
  }

  lemma Regroup(h: nat, d: nat, l: nat, e: nat)
    ensures (h * d + l) * e == l * e + h * (d * e)
  {
    assert (h * d) * e == h * (d * e);
  }

  lemma NoCarry(x: nat, c: nat, big: nat, o: nat, p: nat)
    requires x + c * big == o * p < big
    ensures c == 0 && x == o * p
  {
    if c >= 1 { ProductAtLeast(c, 1, big); }
  }

  lemma RoomForSubbits(v: nat, words: nat, sub: nat, n: nat)
    requires v < Pow2(32 * words) && sub < 32 && words < n
    ensures v * Pow2(sub) < Pow2(32 * n)
  {
    hide Pow2;
    Pow2Sum(32 * words, sub);
    Pow2Monotone(32 * words + sub, 32 * n);
    StrictProduct(v, Pow2(32 * words), Pow2(sub));
  }

  lemma StrictProduct(x: nat, y: nat, p: nat)
    requires x < y && p >= 1
    ensures x * p < y * p
  {
  }

  /** Adding a carry to the low word that has been vacated. */
  lemma AddCarry(x: Blob, v: nat, sub: nat, carry: Word32)
    requires x != [] && Value(x) == v * Pow2(sub) && carry < Pow2(sub)
    ensures var n := |x|; Value(x[n - 1 := WordXor(x[n - 1], carry)]) == v * Pow2(sub) + carry
  {
    hide Value, Pow2, Xor;
    var n := |x|;
    var y := SmallBlob(n, carry);
    forall i | 0 <= i < n - 1
      ensures WordXor(x[i], y[i]) == x[i]
    {
      XorZero(x[i]);
    }
    assert x[n - 1 := WordXor(x[n - 1], carry)] == BlobXor(x, y);
    BlobXorValue(x, y);
    SmallBlobValue(n, carry);
    XorDisjoint(v, carry, sub);
  }

  lemma Combine(v: nat, r0: nat, h0: nat, e: nat, p: nat, r: nat, c: nat, big: nat)
    requires v * e == r0 + h0 * big && r + c * big == r0 * p
    ensures v * (e * p) == r + (h0 * p + c) * big
  {
    assert v * (e * p) == (v * e) * p == r0 * p + (h0 * big) * p;
    assert (h0 * big) * p == (h0 * p) * big;
  }

  /** The shift is exact: nothing is lost between the result and the overflow. */
  method BlobShiftLeft(num: Blob, bits: nat) returns (res: Blob, overflow: Blob)
    requires num != [] && bits <= 32 * |num|
    ensures |res| == |overflow| == |num|
    ensures Value(num) * Pow2(bits) == Value(res) + Value(overflow) * Pow2(32 * |num|)
  {
    hide Value, Pow2, Zeros, WordXor;
    var n := |num|;
    var words, subbits := bits / WORD_BITS, bits % WORD_BITS;
    var r := new Word32[n](i requires 0 <= i < n => num[i]);
    var o := new Word32[n](_ => 0);
    assert r[..] == num;
    WordsShifted(num, words);
    if words != 0 {
      BlobShiftLeftWords(r, o, words);
    } else {
      NoWords(num, o[..]);
    }
    ghost var r0, h0 := Value(r[..]), Value(o[..]);
    if subbits != 0 {
      if words != 0 {
        var dropped := BlobShiftLeftSubbits(o, subbits);
        RoomForSubbits(h0, words, subbits, n);
        NoCarry(Value(o[..]), dropped, Pow2(32 * n), h0, Pow2(subbits));
      }
      ghost var x := o[..];
      var carry := BlobShiftLeftSubbits(r, subbits);
      AddCarry(x, h0, subbits, carry);
      o[n - 1] := WordXor(o[n - 1], carry);
      assert o[..] == x[n - 1 := WordXor(x[n - 1], carry)];
      Pow2Sum(32 * words, subbits);
      Combine(Value(num), r0, h0, Pow2(32 * words), Pow2(subbits), Value(r[..]), carry, Pow2(32 * n));
    }
    res, overflow := r[..], o[..];
  }

  lemma NoWords(num: Blob, o: Blob)
    requires |o| == |num| && forall i :: 0 <= i < |o| ==> o[i] == 0
    ensures num == num[0..] + Zeros(0) && o == Zeros(|num| - 0) + num[..0]
    ensures Value(o) == 0
  {
    assert o == Zeros(|o|);
    ZerosValue(|o|);
  }
}
