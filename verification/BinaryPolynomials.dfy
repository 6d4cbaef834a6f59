/** Polynomials over GF(2), coded as numbers: bit i is the coefficient of x^i. */
module BinaryPolynomials {
  import opened PowersOfTwo

  /** Sum of two polynomials: exclusive or of the codes. */
  function Xor(a: nat, b: nat): (c: nat) {
    if a == 0 && b == 0 then 0
    else 2 * Xor(a / 2, b / 2) + if a % 2 != b % 2 then 1 else 0
  }

  lemma XorStep(a: nat, b: nat)
    ensures Xor(a, b) == 2 * Xor(a / 2, b / 2) + if a % 2 != b % 2 then 1 else 0
  {}

  lemma {:induction false} XorComm(a: nat, b: nat)
    ensures Xor(a, b) == Xor(b, a)
  {
    if a != 0 || b != 0 { XorComm(a / 2, b / 2); }
  }

  lemma {:induction false} XorAssoc(a: nat, b: nat, c: nat)
    ensures Xor(Xor(a, b), c) == Xor(a, Xor(b, c))
  {
    hide Xor;
    if a == 0 && b == 0 && c == 0 {
      XorSelf(0);
    } else {
      XorAssoc(a / 2, b / 2, c / 2);
      XorStep(a, b);
      XorStep(b, c);
      XorStep(Xor(a, b), c);
      XorStep(a, Xor(b, c));
    }
  }

  lemma {:induction false} XorZero(a: nat)
    ensures Xor(a, 0) == a && Xor(0, a) == a
  {
    if a != 0 { XorZero(a / 2); }
  }

  lemma {:induction false} XorSelf(a: nat)
    ensures Xor(a, a) == 0
  {
    if a != 0 { XorSelf(a / 2); }
  }

  lemma XorDouble(a: nat, b: nat)
    ensures Xor(2 * a, 2 * b) == 2 * Xor(a, b)
  {
    XorStep(2 * a, 2 * b);
  }

  /** (a + b) + (c + d) == (a + c) + (b + d) */
  lemma XorInterchange(a: nat, b: nat, c: nat, d: nat)
    ensures Xor(Xor(a, b), Xor(c, d)) == Xor(Xor(a, c), Xor(b, d))
  {
    hide *;
    XorAssoc(a, b, Xor(c, d));
    XorAssoc(b, c, d);
    XorComm(b, c);
    XorAssoc(c, b, d);
    XorAssoc(a, c, Xor(b, d));
  }

  lemma HalfConcat(a: nat, b: nat, p: nat, q: nat)
    requires q == 2 * p && b < q
    ensures (a * q + b) / 2 == a * p + b / 2
    ensures (a * q + b) % 2 == b % 2
    ensures b / 2 < p
  {
    assert a * q == 2 * (a * p);
  }

  lemma DoubleConcat(a: nat, p: nat, q: nat, b: nat, e: nat)
    requires q == 2 * p
    ensures 2 * (a * p + b) + e == a * q + (2 * b + e)
  {
    assert a * q == 2 * (a * p);
  }

  /** The induction step of XorConcat on two numbers x and y split at bit k. */
  lemma XorConcatStep(x: nat, y: nat, a: nat, b: nat, c: nat, d: nat, p: nat, q: nat)
    requires q == 2 * p
    requires x / 2 == a * p + b / 2 && y / 2 == c * p + d / 2 && x % 2 == b % 2 && y % 2 == d % 2
    requires Xor(x / 2, y / 2) == Xor(a, c) * p + Xor(b / 2, d / 2) && Xor(b / 2, d / 2) < p
    ensures Xor(b, d) < q
    ensures Xor(x, y) == Xor(a, c) * q + Xor(b, d)
  {
    hide *;
    var e := if x % 2 != y % 2 then 1 else 0;
    XorStep(x, y);
    XorStep(b, d);
    DoubleConcat(Xor(a, c), p, q, Xor(b / 2, d / 2), e);
  }

  lemma XorConcatNone(a: nat, b: nat, c: nat, d: nat, q: nat)
    requires q == 1 && b < q && d < q
    ensures Xor(b, d) < q
    ensures Xor(a * q + b, c * q + d) == Xor(a, c) * q + Xor(b, d)
  {
    hide *;
    XorZero(0);
  }

  lemma XorParity(a: nat, b: nat)
    ensures Xor(a, b) % 2 == if a % 2 != b % 2 then 1 else 0
  {
    hide *;
    XorStep(a, b);
    LastDigit(Xor(a / 2, b / 2), if a % 2 != b % 2 then 1 else 0);
  }

  lemma LastDigit(h: nat, e: nat)
    requires e < 2
    ensures (2 * h + e) % 2 == e
  {}

  /** Adding polynomials that share no coefficient position is adding the codes. */
  lemma {:induction false} XorConcat(a: nat, b: nat, c: nat, d: nat, k: nat)
    requires b < Pow2(k) && d < Pow2(k)
    ensures Xor(b, d) < Pow2(k)
    ensures Xor(a * Pow2(k) + b, c * Pow2(k) + d) == Xor(a, c) * Pow2(k) + Xor(b, d)
  {
    hide *;
    var q := Pow2(k);
    Pow2Step(if k == 0 then 0 else k - 1);
    if k == 0 {
      XorConcatNone(a, b, c, d, q);
    } else {
      var p := Pow2(k - 1);
      HalfConcat(a, b, p, q);
      HalfConcat(c, d, p, q);
      XorConcat(a, b / 2, c, d / 2, k - 1);
      XorConcatStep(a * q + b, c * q + d, a, b, c, d, p, q);
    }
  }

  lemma XorDisjoint(a: nat, b: nat, k: nat)
    requires b < Pow2(k)
    ensures Xor(a * Pow2(k), b) == a * Pow2(k) + b
    ensures Xor(b, a * Pow2(k)) == a * Pow2(k) + b
  {
    hide Xor;
    XorConcat(a, 0, 0, b, k);
    XorZero(a);
    XorZero(b);
    XorComm(a * Pow2(k), b);
  }

  lemma XorBound(a: nat, b: nat, k: nat)
    requires a < Pow2(k) && b < Pow2(k)
    ensures Xor(a, b) < Pow2(k)
  {
    XorConcat(0, a, 0, b, k);
  }

  lemma XorLow(h: nat, c: nat)
    requires c < 2
    ensures Xor(2 * h, c) == 2 * h + c
  {
    XorStep(2 * h, c);
    XorZero(h);
  }

  /** Product of two polynomials. */
  function Product(a: nat, b: nat): (c: nat) {
    if a == 0 then 0
    else Xor(2 * Product(a / 2, b), if a % 2 == 1 then b else 0)
  }
}
