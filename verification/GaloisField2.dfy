/** The slow field arithmetic of the evaluation hash, with its table of reduced powers of x. */
module GaloisField2 {
  import opened Words
  import opened PowersOfTwo
  import opened BinaryPolynomials
  import opened Bits
  import opened BinaryField
  import opened Blobs
  import opened BlobShifts

  /** The word and mask that the code looks at hold the bit in question. */
  lemma BlobBit(s: Blob, i: nat)
    requires i < 32 * |s|
    ensures BitAt(Value(s), i) == BitAt(s[|s| - 1 - i / 32], i % 32)
  {
    hide Value, Pow2, BitAt;
    var j, t := i / 32, i % 32;
    var k := |s| - 1 - j;
    var hi, w, lo := s[..k], s[k], s[k + 1..];
    assert s == (hi + [w]) + lo;
    ValueConcat(hi + [w], lo);
    ValueLast(hi, w);
    ValueBound(lo);
    BitOfConcat(Value(hi + [w]), Value(lo), 32 * j, i);
    SmallPowers();
    BitOfConcat(Value(hi), w, 32, t);
  }

  /** The field GF(2^(32 * words)) with a modulus that fits one word below its leading term. */
  function FieldOf(words: nat, modulus: Word32): (f: Field)
    requires words > 0
    ensures f.Valid() && 1 < f.Size()
  {
    SmallPowers();
    Pow2Monotone(32, 32 * words);
    Field(32 * words, modulus)
  }

  lemma FieldOfParts(words: nat, modulus: Word32)
    requires words > 0
    ensures FieldOf(words, modulus).n == 32 * words && FieldOf(words, modulus).g == modulus
  {}

  /** Row i of a reduction table is x^i mod f. */
  ghost predicate TableRow(f: Field, words: nat, row: Blob, i: nat)
    requires f.Valid() && 1 < f.Size()
  {
    |row| == words && Value(row) == XPower(f, i)
  }

  /** num plus the reduced powers of x that the bits of the overflow below i stand for. */
  ghost function ReducedTo(f: Field, num: nat, overflow: nat, i: nat): nat
    requires f.Valid() && 1 < f.Size()
  {
    Xor(num, Times(f, LowBits(overflow, i) * f.Size(), 1))
  }

  lemma ReducedStart(f: Field, num: nat, overflow: nat)
    requires f.Valid() && 1 < f.Size()
    ensures ReducedTo(f, num, overflow, 0) == num
  {
    XorZero(num);
  }

  lemma XPowerAt(f: Field, i: nat)
    requires f.Valid() && 1 < f.Size()
    ensures Times(f, Pow2(i), 1) == XPower(f, i)
  {
    TimesPower(f, 1, i, 1);
    TimesOne(f, 1);
    XPowerShifted(f, i);
  }

  lemma ReducedStep(f: Field, num: nat, overflow: nat, i: nat)
    requires f.Valid() && 1 < f.Size()
    ensures ReducedTo(f, num, overflow, i + 1) ==
      if BitAt(overflow, i) == 1 then Xor(ReducedTo(f, num, overflow, i), XPower(f, i + f.n))
      else ReducedTo(f, num, overflow, i)
  {
    hide Xor, Times, BitAt, XPower, Pow2;
    var l := LowBits(overflow, i);
    if BitAt(overflow, i) == 1 {
      LowBitsBound(overflow, i);
      assert LowBits(overflow, i + 1) == Pow2(i) + l;
      Pow2Sum(i, f.n);
      var a, b := Pow2(i) * f.Size(), l * f.Size();
      assert (Pow2(i) + l) * f.Size() == a + b;
      XorDisjoint(1, l, i);
      ShiftedXor(l, Pow2(i), f.n);
      TimesLinearLeft(f, b, a, 1);
      XPowerAt(f, i + f.n);
      XorAssoc(num, Times(f, b, 1), XPower(f, i + f.n));
    } else {
      assert LowBits(overflow, i + 1) == l + 0 * Pow2(i);
    }
  }

  lemma ShiftedXor(l: nat, p: nat, k: nat)
    requires Xor(l, p) == p + l
    ensures Xor(l * Pow2(k), p * Pow2(k)) == (p + l) * Pow2(k)
  {
    hide Xor;
    XorConcat(l, 0, p, 0, k);
    XorZero(0);
  }

  /** A value with its overflow, reduced, is the remainder of the whole. */
  lemma ReducedAll(f: Field, num: nat, overflow: nat)
    requires f.Valid() && 1 < f.Size() && num < f.Size() && overflow < f.Size()
    ensures ReducedTo(f, num, overflow, f.n) == Times(f, num + overflow * f.Size(), 1)
  {
    hide Xor, Times;
    LowBitsAll(overflow, f.n);
    XorDisjoint(overflow, num, f.n);
    TimesLinearLeft(f, num, overflow * f.Size(), 1);
    TimesOne(f, num);
  }

  /** Only overflow bits whose table rows are already there can be set. */
  lemma ReadyBit(f: Field, num: nat, overflow: nat, i: nat, k: nat)
    requires f.Valid() && BitAt(overflow, i) == 1
    requires num + overflow * f.Size() < Pow2(k)
    ensures i + f.n < k
  {
    BitImpliesSize(overflow, i);
    Pow2Sum(i, f.n);
    ProductAtLeast(overflow, Pow2(i), f.Size());
    if i + f.n >= k { Pow2Monotone(k, i + f.n); }
  }

  /** The product of two polynomials needs no table row from k on. */
  ghost predicate Fits(v1: nat, v2: nat, k: nat) {
    v1 * v2 < Pow2(k)
  }

  lemma PowerBlob(f: Field, blob: Blob, overflow: Blob, bit: nat)
    requires f.Valid() && 1 < f.Size() && bit < f.n && f.n == 32 * |blob| == 32 * |overflow|
    requires 1 * Pow2(bit) == Value(blob) + Value(overflow) * Pow2(32 * |blob|)
    ensures Value(blob) == Pow2(bit) == XPower(f, bit)
  {
    hide Value, XPower, Pow2;
    SmallXPower(f, bit);
    NoCarry(Value(blob), Value(overflow), Pow2(32 * |blob|), 1, Pow2(bit));
  }

  lemma PowerFits(f: Field, e: nat)
    requires f.Valid()
    ensures Fits(Pow2(e), f.g, e + f.n)
  {
    hide Pow2;
    Pow2Sum(e, f.n);
    StrictProduct(f.g, f.Size(), Pow2(e));
  }

  lemma {:induction false} XPowerSum(f: Field, e: nat, n: nat)
    requires f.Valid() && 1 < f.Size()
    ensures XPower(f, e + n) == Shifted(f, XPower(f, e), n)
  {
    hide TimesX;
    if n > 0 { XPowerSum(f, e, n - 1); }
  }

  /** x^(e + n) is x^e times the remainder of x^n. */
  lemma PowerByModulus(f: Field, e: nat)
    requires f.Valid() && 1 < f.Size()
    ensures Times(f, f.g, XPower(f, e)) == XPower(f, e + f.n)
  {
    hide Times, XPower, Shifted, Pow2;
    TimesModulus(f, XPower(f, e));
    PowerTimes(f, XPower(f, e), f.n);
    XPowerSum(f, e, f.n);
  }

  class Gf2 {
    const words: nat
    const modulusEquiv: Blob
    const bitReductionTable: array<Blob>
    ghost const f: Field

    /** The first k rows of the reduction table are in place. */
    ghost predicate Ready(k: nat)
      reads bitReductionTable
    {
      && words > 0 && |modulusEquiv| == words && f.Valid() && 1 < f.Size() && f.n == 32 * words
      && Value(modulusEquiv) == f.g
      && bitReductionTable.Length == 64 * words && k <= 64 * words
      && forall i :: 0 <= i < k ==> TableRow(f, words, bitReductionTable[i], i)
    }

    /** Fill the reduction table; every row is computed from the rows before it. */
    constructor (words: nat, modulus: Word32)
      requires words > 0
      ensures this.words == words && f == FieldOf(words, modulus)
      ensures fresh(bitReductionTable) && Ready(64 * words)
    {
      this.words := words;
      modulusEquiv := SmallBlob(words, modulus);
      bitReductionTable := new Blob[64 * words](_ => []);
      f := FieldOf(words, modulus);
      new;
      SmallBlobValue(words, modulus);
      SetupBitReductionTable();
    }

    method SetupBitReductionTable()
      requires Ready(0)
      modifies bitReductionTable
      ensures Ready(64 * words)
    {
      hide TableRow, Value, FieldOf;
      for i := 0 to 64 * words
        invariant Ready(i)
      {
        var row := ReduceBitSlow(i);
        bitReductionTable[i] := row;
      }
    }

    /** x^bit in the field, using only the rows below bit. */
    method ReduceBitSlow(bit: nat) returns (blob: Blob)
      requires Ready(bit) && bit < 64 * words
      ensures TableRow(f, words, blob, bit)
    {
      var overflow;
      blob := SmallBlob(words, 1);
      SmallBlobValue(words, 1);
      hide Value, Pow2, Xor, Times, XPower, SmallBlob, Fits;
      if bit < 32 * words {
        blob, overflow := BlobShiftLeft(blob, bit);
        PowerBlob(f, blob, overflow, bit);
      } else {
        blob, overflow := BlobShiftLeft(blob, bit - 32 * words);
        PowerBlob(f, blob, overflow, bit - 32 * words);
        PowerFits(f, bit - 32 * words);
        blob := Mul(blob, modulusEquiv, bit);
        PowerByModulus(f, bit - 32 * words);
      }
    }

    lemma FieldFacts(num: Blob, k: nat)
      requires Ready(k) && |num| == words
      ensures f.Valid() && 1 < f.Size() && words > 0 && f.n == 32 * words
      ensures Value(num) < f.Size()
    {
      ValueBound(num);
    }

    method Add(num1: Blob, num2: Blob) returns (res: Blob)
      requires |num1| == |num2|
      ensures res == BlobXor(num1, num2)
      ensures Value(res) == Xor(Value(num1), Value(num2))
    {
      hide WordXor, Xor, Value;
      res := num1;
      var i := 0;
      while i < |num1|
        invariant i <= |num1| == |res|
        invariant forall k :: 0 <= k < i ==> res[k] == WordXor(num1[k], num2[k])
        invariant forall k :: i <= k < |num1| ==> res[k] == num1[k]
      {
        res := res[i := WordXor(num1[i], num2[i])];
        i := i + 1;
      }
      BlobXorValue(num1, num2);
    }

    method TstBit(blob: Blob, bit: nat) returns (set_: bool)
      requires bit < 32 * |blob|
      ensures set_ == (BitAt(Value(blob), bit) == 1)
    {
      BlobBit(blob, bit);
      set_ := BitAt(blob[|blob| - 1 - bit / WORD_BITS], bit % WORD_BITS) == 1;
    }

    /** num with its overflow, taken modulo the field's polynomial. */
    method Reduce(num: Blob, overflow: Blob, ghost k: nat) returns (res: Blob)
      requires Ready(k) && |num| == |overflow| == words
      requires Value(num) + Value(overflow) * f.Size() < Pow2(k)
      ensures |res| == words
      ensures Value(res) == Times(f, Value(num) + Value(overflow) * f.Size(), 1)
    {
      hide Value, Pow2, Xor, Times, XPower, BitAt, ReducedTo;
      res := num;
      ReducedStart(f, Value(num), Value(overflow));
      var i := 0;
      while i < 32 * words
        invariant i <= 32 * words && |res| == words
        invariant Value(res) == ReducedTo(f, Value(num), Value(overflow), i)
      {
        ReducedStep(f, Value(num), Value(overflow), i);
        var isSet := TstBit(overflow, i);
        if isSet {
          ReadyBit(f, Value(num), Value(overflow), i, k);
          var reducedBit := bitReductionTable[i + 32 * words];
          assert TableRow(f, words, bitReductionTable[i + 32 * words], i + 32 * words);
          res := Add(res, reducedBit);
        }
        i := i + 1;
      }
      ValueBound(num);
      ValueBound(overflow);
      ReducedAll(f, Value(num), Value(overflow));
    }

    /** num * x^bits in the field. */
    method Shift(bits: nat, num: Blob, ghost k: nat) returns (res: Blob)
      requires Ready(k) && |num| == words && bits <= 32 * words
      requires Value(num) * Pow2(bits) < Pow2(k)
      ensures |res| == words && Value(num) < f.Size()
      ensures Value(res) == Shifted(f, Value(num), bits)
    {
      hide Value, Pow2, Xor, Times, TableRow;
      var overflow;
      ValueBound(num);
      res, overflow := BlobShiftLeft(num, bits);
      res := Reduce(res, overflow, k);
      TimesPower(f, Value(num), bits, 1);
      TimesOne(f, Value(num));
    }

    /** The inner loop of the product: add num1, shifted, for every set bit of one word. */
    method MulWord(acc: Blob, num1: Blob, num2: Blob, i: nat, ghost k: nat) returns (res: Blob)
      requires Ready(k) && |acc| == |num1| == |num2| == words && i < words
      requires Fits(Value(num1), Value(num2), k)
      requires Value(num1) < f.Size() && Value(acc) == Times(f, Value(num2[i + 1..]), Value(num1))
      ensures |res| == words && Value(res) == Times(f, Value(num2[i..]), Value(num1))
    {
      hide Value, Pow2, Xor, Times, BitAt, Shr, PartialProduct, Shifted, Fits, Ready;
      FieldFacts(num1, k);
      ghost var v1, c, d: nat := Value(num1), Value(num2[i + 1..]), 32 * (words - 1 - i);
      var word := num2[i];
      res := acc;
      ProductWordStart(f, word, c, d, v1);
      var j: int := 31;
      while j >= 0
        invariant -1 <= j < 32 && |res| == words
        invariant Value(res) == PartialProduct(f, word, c, d, v1, j + 1)
      {
        ProductBit(f, word, c, d, v1, j);
        if BitAt(word, j) == 1 {
          BitWithin(num2, i, j, v1, k);
          var shifted := Shift((words - 1 - i) * WORD_BITS + j, num1, k);
          res := Add(res, shifted);
        }
        j := j - 1;
      }
      ProductWordEnd(f, num2, i, v1);
    }

    /** num1 * num2 in the field, by shifting and adding num1 for every set bit of num2. */
    method Mul(num1: Blob, num2: Blob, ghost k: nat) returns (res: Blob)
      requires Ready(k) && |num1| == |num2| == words
      requires Fits(Value(num1), Value(num2), k)
      ensures |res| == words && Value(num1) < f.Size()
      ensures Value(res) == Times(f, Value(num2), Value(num1))
    {
      FieldFacts(num1, k);
      hide Value, Pow2, Xor, Times, TableRow, Zeros, Ready, Fits;
      res := Zeros(words);
      ZerosValue(words);
      ProductStart(f, num2, Value(num1));
      for i := words downto 0
        invariant |res| == words
        invariant Value(res) == Times(f, Value(num2[i..]), Value(num1))
      {
        if num2[i] != 0 {
          res := MulWord(res, num1, num2, i, k);
        } else {
          ProductWordZero(num2, i);
        }
      }
      assert num2[0..] == num2;
    }
  }

  lemma ProductStart(f: Field, num2: Blob, v1: nat)
    requires f.Valid() && v1 < f.Size()
    ensures Times(f, Value(num2[|num2|..]), v1) == 0
  {
    assert num2[|num2|..] == [];
  }

  /** The product with the low words c and with the bits of one word from bit j on. */
  ghost function PartialProduct(f: Field, word: nat, c: nat, d: nat, v1: nat, j: nat): nat
    requires f.Valid() && v1 < f.Size()
  {
    Xor(Times(f, c, v1), Times(f, (Shr(word, j) * Pow2(j)) * Pow2(d), v1))
  }

  lemma ProductWordStart(f: Field, word: Word32, c: nat, d: nat, v1: nat)
    requires f.Valid() && v1 < f.Size()
    ensures PartialProduct(f, word, c, d, v1, 32) == Times(f, c, v1)
  {
    hide Xor;
    SmallPowers();
    ShrNothing(word, 32);
    assert Times(f, 0, v1) == 0;
    XorZero(Times(f, c, v1));
  }

  lemma ProductBit(f: Field, word: nat, c: nat, d: nat, v1: nat, j: nat)
    requires f.Valid() && v1 < f.Size()
    ensures PartialProduct(f, word, c, d, v1, j) ==
      if BitAt(word, j) == 1 then Xor(PartialProduct(f, word, c, d, v1, j + 1), Shifted(f, v1, d + j))
      else PartialProduct(f, word, c, d, v1, j + 1)
  {
    hide Xor, Times, Shr, BitAt, Pow2, Shifted;
    var h, b := Shr(word, j + 1), BitAt(word, j);
    ShrStep(word, j);
    Pow2Step(j);
    var p := Pow2(j);
    BitAppend(h, b, p, Pow2(j + 1));
    if b == 1 {
      Pow2Sum(j, d);
      XorDisjoint(h, p, j + 1);
      ShiftedXor(h * Pow2(j + 1), p, d);
      TimesLinearLeft(f, (h * Pow2(j + 1)) * Pow2(d), p * Pow2(d), v1);
      XorAssoc(Times(f, c, v1), Times(f, (h * Pow2(j + 1)) * Pow2(d), v1), Times(f, p * Pow2(d), v1));
      PowerTimes(f, v1, j + d);
    }
  }

  lemma BitAppend(h: nat, b: nat, p: nat, q: nat)
    requires q == 2 * p && b < 2
    ensures (2 * h + b) * p == h * q + b * p
    ensures b == 1 ==> (2 * h + b) * p == p + h * q
    ensures b == 0 ==> (2 * h + b) * p == h * q
  {
    assert h * q == (2 * h) * p;
  }

  lemma PowerTimes(f: Field, v1: nat, s: nat)
    requires f.Valid() && v1 < f.Size()
    ensures Times(f, Pow2(s), v1) == Shifted(f, v1, s)
  {
    hide Times, Xor;
    TimesPower(f, 1, s, v1);
    TimesBit(f, 1, v1);
  }

  lemma ProductWordEnd(f: Field, num2: Blob, i: nat, v1: nat)
    requires f.Valid() && v1 < f.Size() && i < |num2|
    ensures var d := 32 * (|num2| - 1 - i);
      PartialProduct(f, num2[i], Value(num2[i + 1..]), d, v1, 0) == Times(f, Value(num2[i..]), v1)
  {
    hide Xor, Times, Value, Pow2;
    var d, c, w := 32 * (|num2| - 1 - i), Value(num2[i + 1..]), num2[i];
    Pow2Step(0);
    assert Shr(w, 0) * Pow2(0) == w;
    assert num2[i..] == [w] + num2[i + 1..];
    ValueCons(w, num2[i + 1..]);
    ValueBound(num2[i + 1..]);
    XorDisjoint(w, c, d);
    TimesLinearLeft(f, c, w * Pow2(d), v1);
  }

  lemma ProductWordZero(num2: Blob, i: nat)
    requires i < |num2| && num2[i] == 0
    ensures Value(num2[i..]) == Value(num2[i + 1..])
  {
    hide Value, Pow2;
    assert num2[i..] == [0] + num2[i + 1..];
    ValueCons(0, num2[i + 1..]);
  }

  /** A set bit of num2 is a bound on how far num1 has to be shifted. */
  lemma BitWithin(num2: Blob, i: nat, j: nat, v1: nat, k: nat)
    requires i < |num2| && j < 32 && BitAt(num2[i], j) == 1
    requires Fits(v1, Value(num2), k)
    ensures v1 * Pow2(32 * (|num2| - 1 - i) + j) < Pow2(k)
  {
    hide Value, Pow2, BitAt;
    var s := 32 * (|num2| - 1 - i) + j;
    BlobBit(num2, s);
    assert |num2| - 1 - s / 32 == i && s % 32 == j;
    BitImpliesSize(Value(num2), s);
    ProductAtLeast(Value(num2), Pow2(s), v1);
  }
}
