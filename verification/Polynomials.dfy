/** Powers, and polynomials over the integers evaluated by Horner's rule. */
module Polynomials {
  import opened Residues

  function Pow(x: int, n: nat): int {
    if n == 0 then 1 else x * Pow(x, n - 1)
  }

  lemma {:induction false} PowAdd(x: int, m: nat, n: nat)
    ensures Pow(x, m + n) == Pow(x, m) * Pow(x, n)
  {
    if m > 0 {
      PowAdd(x, m - 1, n);
      assert x * (Pow(x, m - 1) * Pow(x, n)) == (x * Pow(x, m - 1)) * Pow(x, n);
    }
  }

  lemma MulInterchange(x: int, y: int, a: int, b: int)
    ensures (x * y) * (a * b) == (x * a) * (y * b)
  {
    calc {
      (x * y) * (a * b);
      x * (y * (a * b));
      { assert y * (a * b) == a * (y * b); }
      x * (a * (y * b));
      (x * a) * (y * b);
    }
  }

  lemma {:induction false} PowOfProduct(x: int, y: int, n: nat)
    ensures Pow(x * y, n) == Pow(x, n) * Pow(y, n)
  {
    if n > 0 {
      PowOfProduct(x, y, n - 1);
      var a, b := Pow(x, n - 1), Pow(y, n - 1);
      MulInterchange(x, y, a, b);
    }
  }

  lemma {:induction false} PowCong(x: int, y: int, n: nat)
    requires Cong(x, y)
    ensures Cong(Pow(x, n), Pow(y, n))
  {
    if n > 0 {
      PowCong(x, y, n - 1);
      CongMul(x, y, Pow(x, n - 1), Pow(y, n - 1));
    }
  }

  lemma {:induction false} PowOne(n: nat)
    ensures Pow(1, n) == 1
  { if n > 0 { PowOne(n - 1); } }

  lemma {:induction false} PowSquare(x: int, n: nat)
    ensures Pow(x, 2 * n) == Pow(x * x, n)
  {
    PowAdd(x, n, n);
    PowOfProduct(x, x, n);
  }

  /** The polynomial s[0] + s[1]*x + s[2]*x^2 + ... over the integers. */
  ghost function Eval(s: seq<int>, x: int): int {
    if s == [] then 0 else s[0] + x * Eval(s[1..], x)
  }

  lemma EvalCons(s: seq<int>, x: int)
    requires s != []
    ensures Eval(s, x) == s[0] + x * Eval(s[1..], x)
  {}

  lemma EvalEmpty(x: int)
    ensures Eval([], x) == 0
  {}

  lemma {:induction false} EvalConcat(s: seq<int>, t: seq<int>, x: int)
    ensures Eval(s + t, x) == Eval(s, x) + Pow(x, |s|) * Eval(t, x)
  {
    hide Eval, Pow;
    if s == [] {
      assert s + t == t && s == [];
      EvalEmpty(x);
      PowZero(x);
    } else {
      EvalConcat(s[1..], t, x);
      assert (s + t)[1..] == s[1..] + t;
      EvalCons(s, x);
      EvalCons(s + t, x);
      PowStep(x, |s| - 1);
      ConcatStep(s[0], x, Eval(s[1..], x), Pow(x, |s| - 1), Eval(t, x));
    }
  }

  lemma PowZero(x: int)
    ensures Pow(x, 0) == 1
  {}

  lemma PowStep(x: int, n: nat)
    ensures Pow(x, n + 1) == x * Pow(x, n)
  {}

  lemma ConcatStep(a: int, x: int, e: int, p: int, f: int)
    ensures a + x * (e + p * f) == (a + x * e) + (x * p) * f
  {
    assert x * (e + p * f) == x * e + x * (p * f);
  }

  ghost predicate CongSeq(s: seq<int>, t: seq<int>) {
    |s| == |t| && forall j :: 0 <= j < |s| ==> Cong(s[j], t[j])
  }

  lemma {:induction false} EvalCong(s: seq<int>, t: seq<int>, x: int)
    requires CongSeq(s, t)
    ensures Cong(Eval(s, x), Eval(t, x))
  {
    hide Eval, Cong;
    if s == [] {
      EvalEmpty(x);
      CongRefl(0);
    } else {
      EvalCong(s[1..], t[1..], x);
      EvalCons(s, x);
      EvalCons(t, x);
      CongRefl(x);
      CongMul(x, x, Eval(s[1..], x), Eval(t[1..], x));
      CongAdd(s[0], t[0], x * Eval(s[1..], x), x * Eval(t[1..], x));
    }
  }

  /** s + c*t, entry by entry */
  ghost function AddScaled(s: seq<int>, c: int, t: seq<int>): (r: seq<int>)
    requires |s| == |t|
  {
    seq(|s|, j requires 0 <= j < |s| => s[j] + c * t[j])
  }

  lemma {:induction false} EvalAddScaled(s: seq<int>, c: int, t: seq<int>, x: int)
    requires |s| == |t|
    ensures Eval(AddScaled(s, c, t), x) == Eval(s, x) + c * Eval(t, x)
  {
    hide Eval;
    if s == [] {
      assert AddScaled(s, c, t) == [] && s == [] && t == [];
      EvalEmpty(x);
    } else {
      EvalAddScaled(s[1..], c, t[1..], x);
      assert AddScaled(s, c, t)[1..] == AddScaled(s[1..], c, t[1..]);
      EvalCons(s, x);
      EvalCons(t, x);
      EvalCons(AddScaled(s, c, t), x);
      AddScaledStep(s[0], t[0], x, c, Eval(s[1..], x), Eval(t[1..], x));
    }
  }

  lemma AddScaledStep(a: int, b: int, x: int, c: int, e: int, f: int)
    ensures (a + c * b) + x * (e + c * f) == (a + x * e) + c * (b + x * f)
  {
    assert x * (e + c * f) == x * e + c * (x * f);
    assert c * (b + x * f) == c * b + c * (x * f);
  }

  /** s with entry j multiplied by v^(k+j) */
  ghost function Twist(s: seq<int>, v: int, k: nat): (r: seq<int>) {
    seq(|s|, j requires 0 <= j < |s| => s[j] * Pow(v, k + j))
  }

  lemma {:induction false} EvalTwist(s: seq<int>, v: int, k: nat, y: int)
    ensures Eval(Twist(s, v, k), y) == Pow(v, k) * Eval(s, v * y)
  {
    hide Eval, Pow;
    if s == [] {
      assert Twist(s, v, k) == [] && s == [];
      EvalEmpty(y);
      EvalEmpty(v * y);
    } else {
      EvalTwist(s[1..], v, k + 1, y);
      assert Twist(s, v, k)[1..] == Twist(s[1..], v, k + 1);
      EvalCons(Twist(s, v, k), y);
      EvalCons(s, v * y);
      PowStep(v, k);
      TwistStep(s[0], v, y, Pow(v, k), Eval(s[1..], v * y));
    }
  }

  lemma TwistStep(a: int, v: int, y: int, p: int, e: int)
    ensures a * p + y * ((v * p) * e) == p * (a + (v * y) * e)
  {
    calc {
      y * ((v * p) * e);
      { assert (v * p) * e == v * (p * e); }
      y * (v * (p * e));
      (v * y) * (p * e);
      p * ((v * y) * e);
    }
    assert p * (a + (v * y) * e) == p * a + p * ((v * y) * e);
  }
}
