/** Single bits and right shifts of numbers. */
module Bits {
  import opened PowersOfTwo
  import opened BinaryPolynomials

  /** Bit i of v. */
  function BitAt(v: nat, i: nat): (b: nat)
    ensures b < 2
  {
    if i == 0 then v % 2 else BitAt(v / 2, i - 1)
  }

  /** v shifted right by i places. */
  function Shr(v: nat, i: nat): nat {
    if i == 0 then v else Shr(v / 2, i - 1)
  }

  lemma {:induction false} ShrStep(v: nat, i: nat)
    ensures Shr(v, i) == 2 * Shr(v, i + 1) + BitAt(v, i)
  {
    if i > 0 { ShrStep(v / 2, i - 1); }
  }

  lemma {:induction false} ShrNothing(v: nat, i: nat)
    requires v < Pow2(i)
    ensures Shr(v, i) == 0
  {
    if i > 0 { ShrNothing(v / 2, i - 1); }
  }

  lemma {:induction false} BitOfConcat(a: nat, b: nat, k: nat, i: nat)
    requires b < Pow2(k)
    ensures BitAt(a * Pow2(k) + b, i) == if i < k then BitAt(b, i) else BitAt(a, i - k)
    decreases k
  {
    hide Pow2, BitAt;
    if k == 0 {
      Pow2Step(0);
      assert a * Pow2(k) + b == a;
    } else {
      Pow2Step(k - 1);
      var p, q := Pow2(k - 1), Pow2(k);
      HalfConcat(a, b, p, q);
      BitStep(a * q + b, i);
      BitStep(b, i);
      if i > 0 { BitOfConcat(a, b / 2, k - 1, i - 1); }
    }
  }

  lemma BitStep(v: nat, i: nat)
    ensures BitAt(v, i) == if i == 0 then v % 2 else BitAt(v / 2, i - 1)
  {}

  /** The sum of two polynomials adds their coefficients. */
  lemma {:induction false} XorBitAt(a: nat, b: nat, i: nat)
    ensures BitAt(Xor(a, b), i) == (BitAt(a, i) + BitAt(b, i)) % 2
  {
    hide Xor;
    XorStep(a, b);
    if i > 0 { XorBitAt(a / 2, b / 2, i - 1); }
  }

  /** The number made of the bits of v below i. */
  ghost function LowBits(v: nat, i: nat): (l: nat) {
    if i == 0 then 0 else LowBits(v, i - 1) + BitAt(v, i - 1) * Pow2(i - 1)
  }

  lemma {:induction false} LowBitsBound(v: nat, i: nat)
    ensures LowBits(v, i) < Pow2(i)
  {
    if i > 0 { LowBitsBound(v, i - 1); }
  }

  lemma {:induction false} LowBitsHalf(v: nat, i: nat)
    ensures LowBits(v, i + 1) == v % 2 + 2 * LowBits(v / 2, i)
  {
    if i > 0 {
      LowBitsHalf(v, i - 1);
      BitStep(v, i);
      var b := BitAt(v / 2, i - 1);
      assert b * Pow2(i) == 2 * (b * Pow2(i - 1));
    } else {
      assert LowBits(v, 1) == BitAt(v, 0) * Pow2(0);
    }
  }

  lemma {:induction false} LowBitsAll(v: nat, i: nat)
    requires v < Pow2(i)
    ensures LowBits(v, i) == v
    decreases i
  {
    if i > 0 {
      LowBitsAll(v / 2, i - 1);
      LowBitsHalf(v, i - 1);
    }
  }

  lemma {:induction false} BitImpliesSize(v: nat, i: nat)
    requires BitAt(v, i) == 1
    ensures v >= Pow2(i)
  {
    if i > 0 { BitImpliesSize(v / 2, i - 1); }
  }
}
