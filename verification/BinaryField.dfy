/** The polynomials over GF(2) modulo x^n + g, as a linear machine: multiplication by x and addition. */
module BinaryField {
  import opened PowersOfTwo
  import opened BinaryPolynomials

  /** The modulus is x^n + g with g of degree below n. Irreducibility is not needed. */
  datatype Field = Field(n: nat, g: nat) {
    ghost predicate Valid() {
      n >= 1 && g < Pow2(n)
    }

    function Size(): nat {
      Pow2(n)
    }
  }

  /** x * r, reduced. */
  function TimesX(f: Field, r: nat): (p: nat)
    requires f.Valid() && r < f.Size()
    ensures p < f.Size()
  {
    if 2 * r < f.Size() then 2 * r
    else
      XorBound(2 * r - f.Size(), f.g, f.n);
      Xor(2 * r - f.Size(), f.g)
  }

  /** a * b for any polynomial a and reduced b, by Horner's rule on a. */
  function Times(f: Field, a: nat, b: nat): (p: nat)
    requires f.Valid() && b < f.Size()
    ensures p < f.Size()
  {
    if a == 0 then 0
    else
      var c := if a % 2 == 1 then b else 0;
      XorBound(TimesX(f, Times(f, a / 2, b)), c, f.n);
      Xor(TimesX(f, Times(f, a / 2, b)), c)
  }

  function Scale(bit: nat, b: nat): (p: nat)
    ensures p == 0 || p == b
  {
    if bit % 2 == 1 then b else 0
  }

  lemma TimesStep(f: Field, a: nat, b: nat)
    requires f.Valid() && b < f.Size()
    ensures Times(f, a, b) == Xor(TimesX(f, Times(f, a / 2, b)), Scale(a, b))
  {
    if a == 0 {
      XorZero(0);
      assert Times(f, 0, b) == 0 && TimesX(f, 0) == 0;
    }
  }

  function Top(f: Field, r: nat): nat {
    if f.n >= 1 && r >= Pow2(f.n - 1) then 1 else 0
  }

  function Low(f: Field, r: nat): nat {
    if f.n >= 1 && r >= Pow2(f.n - 1) then r - Pow2(f.n - 1) else r
  }

  lemma TopBit(f: Field, r: nat)
    requires f.Valid() && r < f.Size()
    ensures f.Size() == 2 * Pow2(f.n - 1)
    ensures Low(f, r) < Pow2(f.n - 1) && r == Top(f, r) * Pow2(f.n - 1) + Low(f, r) && Top(f, r) < 2
    ensures TimesX(f, r) == Xor(2 * Low(f, r), Scale(Top(f, r), f.g))
  {
    hide Xor;
    XorZero(2 * r);
  }

  lemma TopUnique(f: Field, r: nat, a: nat, l: nat)
    requires f.Valid() && a < 2 && l < Pow2(f.n - 1) && r == a * Pow2(f.n - 1) + l
    ensures Top(f, r) == a && Low(f, r) == l
  {}

  lemma XorBits(a: nat, b: nat)
    requires a < 2 && b < 2
    ensures Xor(a, b) == if a != b then 1 else 0
  {
    XorStep(a, b);
    XorZero(0);
  }

  lemma TopXor(f: Field, r: nat, s: nat)
    requires f.Valid() && r < f.Size() && s < f.Size()
    ensures Xor(r, s) < f.Size()
    ensures Top(f, Xor(r, s)) == Xor(Top(f, r), Top(f, s))
    ensures Low(f, Xor(r, s)) == Xor(Low(f, r), Low(f, s))
  {
    hide Xor, Pow2, Top, Low, TimesX, Scale;
    TopBit(f, r);
    TopBit(f, s);
    XorConcat(Top(f, r), Low(f, r), Top(f, s), Low(f, s), f.n - 1);
    XorBits(Top(f, r), Top(f, s));
    XorBound(r, s, f.n);
    TopUnique(f, Xor(r, s), Xor(Top(f, r), Top(f, s)), Xor(Low(f, r), Low(f, s)));
  }

  lemma ScaleXor(a: nat, b: nat, g: nat)
    ensures Scale(Xor(a, b), g) == Xor(Scale(a, g), Scale(b, g))
  {
    hide Xor;
    XorParity(a, b);
    XorZero(g);
    XorSelf(g);
    XorZero(0);
  }

  lemma ScaleArgument(a: nat, b: nat, c: nat)
    ensures Scale(a, Xor(b, c)) == Xor(Scale(a, b), Scale(a, c))
  {
    XorZero(0);
  }

  /** Multiplication by x is linear. */
  lemma TimesXLinear(f: Field, r: nat, s: nat)
    requires f.Valid() && r < f.Size() && s < f.Size()
    ensures Xor(r, s) < f.Size()
    ensures TimesX(f, Xor(r, s)) == Xor(TimesX(f, r), TimesX(f, s))
  {
    hide Xor, TimesX, Scale, Top, Low, Pow2;
    var t := Xor(r, s);
    TopXor(f, r, s);
    TopBit(f, r);
    TopBit(f, s);
    TopBit(f, t);
    var l, m := Low(f, r), Low(f, s);
    XorDouble(l, m);
    ScaleXor(Top(f, r), Top(f, s), f.g);
    XorInterchange(2 * l, Scale(Top(f, r), f.g), 2 * m, Scale(Top(f, s), f.g));
  }

  lemma TimesZero(f: Field, a: nat)
    requires f.Valid()
    ensures Times(f, a, 0) == 0
    decreases a
  {
    XorZero(0);
    if a != 0 {
      TimesZero(f, a / 2);
      assert TimesX(f, 0) == 0;
    }
  }

  lemma {:induction false} TimesLinearLeft(f: Field, a: nat, b: nat, c: nat)
    requires f.Valid() && c < f.Size()
    ensures Times(f, Xor(a, b), c) == Xor(Times(f, a, c), Times(f, b, c))
    decreases a + b
  {
    if a == 0 && b == 0 {
      XorZero(0);
    } else {
      hide Xor, TimesX, Times, Scale;
      TimesLinearLeft(f, a / 2, b / 2, c);
      TimesStep(f, a, c);
      TimesStep(f, b, c);
      TimesStep(f, Xor(a, b), c);
      XorHalves(a, b);
      var u, v := Times(f, a / 2, c), Times(f, b / 2, c);
      TimesXLinear(f, u, v);
      ScaleXor(a, b, c);
      XorInterchange(TimesX(f, u), Scale(a, c), TimesX(f, v), Scale(b, c));
    }
  }

  lemma XorHalves(a: nat, b: nat)
    ensures Xor(a, b) / 2 == Xor(a / 2, b / 2)
  {
    XorStep(a, b);
  }

  lemma {:induction false} TimesLinearRight(f: Field, a: nat, b: nat, c: nat)
    requires f.Valid() && b < f.Size() && c < f.Size()
    ensures Xor(b, c) < f.Size()
    ensures Times(f, a, Xor(b, c)) == Xor(Times(f, a, b), Times(f, a, c))
    decreases a
  {
    XorBound(b, c, f.n);
    if a == 0 {
      XorZero(0);
    } else {
      hide Xor, TimesX, Times, Scale;
      TimesLinearRight(f, a / 2, b, c);
      TimesStep(f, a, b);
      TimesStep(f, a, c);
      TimesStep(f, a, Xor(b, c));
      var u, v := Times(f, a / 2, b), Times(f, a / 2, c);
      TimesXLinear(f, u, v);
      ScaleArgument(a, b, c);
      XorInterchange(TimesX(f, u), Scale(a, b), TimesX(f, v), Scale(a, c));
    }
  }

  lemma ScaleX(f: Field, a: nat, b: nat)
    requires f.Valid() && b < f.Size()
    ensures Scale(a, TimesX(f, b)) == TimesX(f, Scale(a, b))
  {}

  lemma {:induction false} TimesOfX(f: Field, a: nat, b: nat)
    requires f.Valid() && b < f.Size()
    ensures Times(f, a, TimesX(f, b)) == TimesX(f, Times(f, a, b))
    decreases a
  {
    if a != 0 {
      hide Xor, TimesX, Times, Scale;
      TimesOfX(f, a / 2, b);
      TimesStep(f, a, b);
      TimesStep(f, a, TimesX(f, b));
      var u := Times(f, a / 2, b);
      ScaleX(f, a, b);
      TimesXLinear(f, TimesX(f, u), Scale(a, b));
    } else {
      assert TimesX(f, 0) == 0;
    }
  }

  lemma TimesDouble(f: Field, a: nat, b: nat)
    requires f.Valid() && b < f.Size()
    ensures Times(f, 2 * a, b) == TimesX(f, Times(f, a, b))
  {
    hide Xor, TimesX, Times;
    TimesStep(f, 2 * a, b);
    XorZero(TimesX(f, Times(f, a, b)));
  }

  /** Reduced polynomials are their own remainder. */
  lemma {:induction false} TimesOne(f: Field, a: nat)
    requires f.Valid() && a < f.Size()
    ensures 1 < f.Size()
    ensures Times(f, a, 1) == a
    decreases a
  {
    assert f.Size() == 2 * Pow2(f.n - 1);
    if a != 0 {
      TimesOne(f, a / 2);
      hide Xor, Times;
      TimesStep(f, a, 1);
      XorLow(a / 2, a % 2);
      XorZero(2 * (a / 2));
    }
  }

  /** x^i, reduced. */
  function XPower(f: Field, i: nat): (p: nat)
    requires f.Valid() && 1 < f.Size()
    ensures p < f.Size()
  {
    if i == 0 then 1 else TimesX(f, XPower(f, i - 1))
  }

  /** b multiplied by x, s times. */
  function Shifted(f: Field, b: nat, s: nat): (p: nat)
    requires f.Valid() && b < f.Size()
    ensures p < f.Size()
  {
    if s == 0 then b else TimesX(f, Shifted(f, b, s - 1))
  }

  lemma {:induction false} TimesPower(f: Field, a: nat, s: nat, b: nat)
    requires f.Valid() && b < f.Size()
    ensures Times(f, a * Pow2(s), b) == Shifted(f, Times(f, a, b), s)
    decreases s
  {
    hide Times, TimesX, Xor;
    if s > 0 {
      TimesPower(f, a, s - 1, b);
      TimesDouble(f, a * Pow2(s - 1), b);
      assert a * Pow2(s) == 2 * (a * Pow2(s - 1));
    }
  }

  lemma {:induction false} XPowerShifted(f: Field, i: nat)
    requires f.Valid() && 1 < f.Size()
    ensures XPower(f, i) == Shifted(f, 1, i)
  {
    if i > 0 { XPowerShifted(f, i - 1); }
  }

  lemma {:induction false} SmallXPower(f: Field, i: nat)
    requires f.Valid() && 1 < f.Size() && i < f.n
    ensures XPower(f, i) == Pow2(i) < f.Size()
  {
    if i > 0 {
      SmallXPower(f, i - 1);
      Pow2Monotone(i + 1, f.n);
    } 
  }

  lemma SizeAboveOne(f: Field)
    requires f.Valid()
    ensures 1 < f.Size() == 2 * Pow2(f.n - 1)
  {}

  /** x^n is g. */
  lemma XPowerOfModulus(f: Field)
    requires f.Valid()
    ensures 1 < f.Size()
    ensures XPower(f, f.n) == f.g
  {
    SizeAboveOne(f);
    SmallXPower(f, f.n - 1);
    XorZero(f.g);
  }

  lemma TimesBit(f: Field, c: nat, b: nat)
    requires f.Valid() && b < f.Size() && c < 2
    ensures Times(f, c, b) == Scale(c, b)
  {
    TimesStep(f, c, b);
    assert Times(f, 0, b) == 0 && TimesX(f, 0) == 0;
    XorZero(Scale(c, b));
  }

  /** The monic modulus acts on every element as its remainder g does. */
  lemma {:induction false} TimesModulus(f: Field, b: nat)
    requires f.Valid() && b < f.Size()
    ensures Times(f, f.Size(), b) == Times(f, f.g, b)
    decreases b
  {
    SizeAboveOne(f);
    if b == 0 {
      TimesZero(f, f.Size());
      TimesZero(f, f.g);
    } else {
      var h, c := b / 2, b % 2;
      TimesModulus(f, h);
      hide Times, Xor;
      assert TimesX(f, h) == 2 * h;
      XorLow(h, c);
      ModulusOfBit(f, c);
      TimesLinearRight(f, f.Size(), 2 * h, c);
      TimesLinearRight(f, f.g, 2 * h, c);
      TimesOfX(f, f.Size(), h);
      TimesOfX(f, f.g, h);
    }
  }

  lemma ModulusOfBit(f: Field, c: nat)
    requires f.Valid() && c < 2
    ensures c < f.Size()
    ensures Times(f, f.Size(), c) == Times(f, f.g, c)
  {
    SizeAboveOne(f);
    hide Times, Xor, TimesX;
    if c == 0 {
      TimesZero(f, f.Size());
      TimesZero(f, f.g);
    } else {
      TimesOne(f, f.g);
      TimesPower(f, 1, f.n, 1);
      TimesOne(f, 1);
      XPowerShifted(f, f.n);
      XPowerOfModulus(f);
    }
  }

  lemma {:induction false} TimesXLeft(f: Field, a: nat, b: nat)
    requires f.Valid() && a < f.Size() && b < f.Size()
    ensures Times(f, TimesX(f, a), b) == TimesX(f, Times(f, a, b))
  {
    TimesDouble(f, a, b);
    if 2 * a >= f.Size() {
      var r := 2 * a - f.Size();
      assert TimesX(f, a) == Xor(r, f.g);
      hide Times, Xor, TimesX, Pow2;
      TimesWrapped(f, r, b);
    }
  }

  lemma TimesWrapped(f: Field, r: nat, b: nat)
    requires f.Valid() && r < f.Size() && b < f.Size()
    ensures Times(f, Xor(r, f.g), b) == Times(f, f.Size() + r, b)
  {
    hide Times, Xor, Pow2;
    var n := f.Size();
    XorDisjoint(1, r, f.n);
    assert 1 * Pow2(f.n) == n;
    TimesLinearLeft(f, n, r, b);
    TimesLinearLeft(f, r, f.g, b);
    TimesModulus(f, b);
    XorComm(Times(f, n, b), Times(f, r, b));
  }

  lemma DoubleHalf(f: Field, a: nat)
    requires f.Valid() && a < f.Size()
    ensures a / 2 < f.Size() && TimesX(f, a / 2) == 2 * (a / 2) < f.Size()
  {
    SizeAboveOne(f);
  }

  /** Multiplication is commutative ... */
  lemma {:induction false} TimesComm(f: Field, a: nat, b: nat)
    requires f.Valid() && a < f.Size() && b < f.Size()
    ensures Times(f, a, b) == Times(f, b, a)
    decreases a
  {
    hide Times, Xor, TimesX, Pow2, Scale;
    if a == 0 {
      TimesZero(f, b);
      TimesNothing(f, b);
    } else {
      var h, c := a / 2, a % 2;
      DoubleHalf(f, a);
      TimesComm(f, h, b);
      TimesStep(f, a, b);
      TimesOfX(f, b, h);
      XorLow(h, c);
      SizeAboveOne(f);
      TimesLinearRight(f, b, 2 * h, c);
      TimesOfBit(f, b, c);
      ScaleParity(a, b);
    }
  }

  lemma TimesNothing(f: Field, b: nat)
    requires f.Valid() && b < f.Size()
    ensures Times(f, 0, b) == 0
  {}

  lemma ScaleParity(a: nat, b: nat)
    ensures Scale(a, b) == Scale(a % 2, b)
  {}

  lemma TimesOfBit(f: Field, b: nat, c: nat)
    requires f.Valid() && b < f.Size() && c < 2
    ensures c < f.Size()
    ensures Times(f, b, c) == Scale(c, b)
  {
    SizeAboveOne(f);
    if c == 0 { TimesZero(f, b); } else { TimesOne(f, b); }
  }

  /** ... and associative. */
  lemma {:induction false} TimesAssoc(f: Field, a: nat, b: nat, c: nat)
    requires f.Valid() && b < f.Size() && c < f.Size()
    ensures Times(f, Times(f, a, b), c) == Times(f, a, Times(f, b, c))
    decreases a
  {
    if a == 0 {
      assert Times(f, 0, c) == 0;
    } else {
      var u := Times(f, a / 2, b);
      TimesAssoc(f, a / 2, b, c);
      hide Times, Xor, TimesX, Scale;
      TimesStep(f, a, b);
      TimesStep(f, a, Times(f, b, c));
      TimesLinearLeft(f, TimesX(f, u), Scale(a, b), c);
      TimesXLeft(f, u, c);
      TimesOfScale(f, a, b, c);
    }
  }

  lemma TimesOfScale(f: Field, a: nat, b: nat, c: nat)
    requires f.Valid() && b < f.Size() && c < f.Size()
    ensures Times(f, Scale(a, b), c) == Scale(a, Times(f, b, c))
  {}

  /** The full modulus x^n + g. */
  function Modulus(f: Field): nat {
    f.Size() + f.g
  }

  lemma ProductStep(a: nat, b: nat)
    ensures Product(a, b) == Xor(2 * Product(a / 2, b), Scale(a, b))
  {
    XorZero(0);
  }

  lemma ScaledRemainder(f: Field, a: nat, b: nat)
    requires f.Valid() && 1 < f.Size()
    ensures Times(f, Scale(a, b), 1) == Scale(a, Times(f, b, 1))
  {}

  lemma {:induction false} ProductRemainder(f: Field, a: nat, b: nat)
    requires f.Valid() && 1 < f.Size()
    ensures Times(f, Product(a, b), 1) == Times(f, a, Times(f, b, 1))
    decreases a
  {
    if a == 0 {
      assert Product(a, b) == 0;
    } else {
      ProductRemainder(f, a / 2, b);
      hide Times, Xor, TimesX, Product;
      var q, r := Product(a / 2, b), Times(f, b, 1);
      ProductStep(a, b);
      TimesStep(f, a, r);
      TimesLinearLeft(f, 2 * q, Scale(a, b), 1);
      TimesDouble(f, q, 1);
      ScaledRemainder(f, a, b);
    }
  }

  /** Times is the polynomial product followed by taking the remainder. */
  lemma TimesIsProduct(f: Field, a: nat, b: nat)
    requires f.Valid() && b < f.Size()
    ensures 1 < f.Size()
    ensures Times(f, a, b) == Times(f, Product(a, b), 1)
  {
    SizeAboveOne(f);
    hide *;
    ProductRemainder(f, a, b);
    TimesOne(f, b);
  }

  /** The quotient that goes with the remainder Times(f, p, 1). */
  ghost function Quotient(f: Field, p: nat): nat
    requires f.Valid() && 1 < f.Size()
  {
    if p == 0 then 0
    else 2 * Quotient(f, p / 2) + if 2 * Times(f, p / 2, 1) < f.Size() then 0 else 1
  }

  lemma WrapBack(f: Field, r: nat)
    requires f.Valid() && r < f.Size()
    ensures var e := if 2 * r < f.Size() then 0 else 1;
      Xor(Scale(e, Modulus(f)), TimesX(f, r)) == 2 * r
  {
    if 2 * r < f.Size() {
      XorZero(2 * r);
    } else {
      var n, t := f.Size(), 2 * r - f.Size();
      hide Xor, Pow2;
      assert 1 * Pow2(f.n) == n;
      XorDisjoint(1, f.g, f.n);
      XorDisjoint(1, t, f.n);
      XorInterchange(n, f.g, t, f.g);
      XorSelf(f.g);
      XorZero(Xor(n, t));
    }
  }

  /** Division with remainder: p is a multiple of the modulus plus Times(f, p, 1). */
  lemma {:induction false} Division(f: Field, p: nat)
    requires f.Valid() && 1 < f.Size()
    ensures p == Xor(Product(Quotient(f, p), Modulus(f)), Times(f, p, 1))
    decreases p
  {
    hide Xor, Product, Times, Quotient, TimesX, Pow2;
    if p == 0 {
      DivisionOfZero(f);
    } else {
      var m, h, c, r := Modulus(f), Quotient(f, p / 2), p % 2, Times(f, p / 2, 1);
      var e := if 2 * r < f.Size() then 0 else 1;
      QuotientStep(f, p);
      Division(f, p / 2);
      DivisionStep(f, p, Product(h, m), r, c, e);
      ProductStep(2 * h + e, m);
      TimesStep(f, p, 1);
      assert Scale(p, 1) == c;
    }
  }

  lemma DivisionOfZero(f: Field)
    requires f.Valid() && 1 < f.Size()
    ensures Xor(Product(Quotient(f, 0), Modulus(f)), Times(f, 0, 1)) == 0
  {
    XorZero(0);
  }

  lemma QuotientStep(f: Field, p: nat)
    requires f.Valid() && 1 < f.Size() && p > 0
    ensures Quotient(f, p) == 2 * Quotient(f, p / 2) + if 2 * Times(f, p / 2, 1) < f.Size() then 0 else 1
  {}

  lemma DivisionStep(f: Field, p: nat, q: nat, r: nat, c: nat, e: nat)
    requires f.Valid() && r < f.Size() && c == p % 2 && p / 2 == Xor(q, r)
    requires e == if 2 * r < f.Size() then 0 else 1
    ensures p == Xor(Xor(2 * q, Scale(e, Modulus(f))), Xor(TimesX(f, r), c))
  {
    hide Xor, TimesX, Pow2;
    var s, t := Scale(e, Modulus(f)), TimesX(f, r);
    WrapBack(f, r);
    XorAssoc(Xor(2 * q, s), t, c);
    XorAssoc(2 * q, s, t);
    XorDouble(q, r);
    XorLow(p / 2, c);
  }

  lemma ModulusVanishes(f: Field)
    requires f.Valid()
    ensures 1 < f.Size() && Times(f, Modulus(f), 1) == 0
  {
    SizeAboveOne(f);
    var n := f.Size();
    hide Xor, Times;
    assert 1 * Pow2(f.n) == n;
    XorDisjoint(1, f.g, f.n);
    TimesLinearLeft(f, n, f.g, 1);
    TimesModulus(f, 1);
    XorSelf(Times(f, f.g, 1));
  }

  /** The remainder is unique. */
  lemma RemainderUnique(f: Field, h: nat, r: nat)
    requires f.Valid() && r < f.Size()
    ensures 1 < f.Size()
    ensures Times(f, Xor(Product(h, Modulus(f)), r), 1) == r
  {
    ModulusVanishes(f);
    hide Xor, Times, Product;
    ProductRemainder(f, h, Modulus(f));
    TimesLinearLeft(f, Product(h, Modulus(f)), r, 1);
    TimesOne(f, r);
    TimesZero(f, h);
    XorZero(r);
  }
}
