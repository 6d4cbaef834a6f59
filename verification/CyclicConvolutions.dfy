module CyclicConvolutions {
  import opened Residues
  import opened Polynomials

  /** Sum over s < k of a[s] * b[(t - s) mod |b|]. */
  ghost function ConvSum(a: seq<int>, b: seq<int>, t: nat, k: nat): int
    requires k <= |a| == |b| && t < |b|
  {
    if k == 0 then 0
    else ConvSum(a, b, t, k - 1) + a[k - 1] * b[if t >= k - 1 then t - (k - 1) else t - (k - 1) + |b|]
  }

  ghost function Convolution(a: seq<int>, b: seq<int>): (c: seq<int>)
    requires |a| == |b|
    ensures |c| == |a|
  {
    seq(|a|, t requires 0 <= t < |a| => ConvSum(a, b, t, |a|))
  }

  ghost function Partial(a: seq<int>, b: seq<int>, k: nat): (c: seq<int>)
    requires k <= |a| == |b|
    ensures |c| == |a|
  {
    seq(|a|, t requires 0 <= t < |a| => ConvSum(a, b, t, k))
  }

  lemma RotateStep(p: int, q: int, e: int, f: int)
    requires Cong(p * q, 1)
    ensures Cong(f + p * e, p * (e + q * f))
  {
    CongMul(p * q, 1, f, f);
    var pe, pqf := p * e, (p * q) * f;
    assert p * (e + q * f) == pe + pqf;
    assert Cong(f + pe, pe + pqf);
  }

  lemma EvalRotate(b: seq<int>, k: nat, z: int)
    requires k <= |b|
    requires Cong(Pow(z, |b|), 1)
    ensures Cong(Eval(b[|b| - k..] + b[..|b| - k], z), Pow(z, k) * Eval(b, z))
  {
    hide *;
    var lo, hi := b[..|b| - k], b[|b| - k..];
    assert b == lo + hi;
    EvalConcat(lo, hi, z);
    EvalConcat(hi, lo, z);
    PowAdd(z, k, |b| - k);
    RotateStep(Pow(z, k), Pow(z, |b| - k), Eval(lo, z), Eval(hi, z));
  }

  /** The induction step of EvalPartial, over plain numbers. */
  lemma PartialStep(e0: int, r: int, a0: int, c: int, p: int, e: int)
    requires Cong(e0, a0 * e) && Cong(r, p * e)
    ensures Cong(e0 + c * r, (a0 + p * c) * e)
  {
    CongMul(c, c, r, p * e);
    var x, y := a0 * e, c * (p * e);
    assert (a0 + p * c) * e == x + y;
    CongAdd(e0, x, c * r, y);
  }

  lemma {:induction false} EvalZeros(n: nat, z: int)
    ensures Eval(seq(n, _ => 0), z) == 0
  {
    if n > 0 {
      EvalZeros(n - 1, z);
      assert seq(n, _ => 0)[1..] == seq(n - 1, _ => 0);
    }
  }

  lemma {:induction false} EvalPartial(a: seq<int>, b: seq<int>, k: nat, z: int)
    requires k <= |a| == |b|
    requires Cong(Pow(z, |b|), 1)
    ensures Cong(Eval(Partial(a, b, k), z), Eval(a[..k], z) * Eval(b, z))
  {
    if k == 0 {
      assert Partial(a, b, 0) == seq(|a|, _ => 0);
      EvalZeros(|a|, z);
      assert Eval(a[..0], z) == 0;
    } else {
      var j := k - 1;
      EvalPartial(a, b, j, z);
      var rot := b[|b| - j..] + b[..|b| - j];
      assert Partial(a, b, k) == AddScaled(Partial(a, b, j), a[j], rot);
      EvalAddScaled(Partial(a, b, j), a[j], rot, z);
      EvalRotate(b, j, z);
      assert a[..k] == a[..j] + [a[j]];
      EvalConcat(a[..j], [a[j]], z);
      assert Eval([a[j]], z) == a[j];
      PartialStep(Eval(Partial(a, b, j), z), Eval(rot, z), Eval(a[..j], z), a[j], Pow(z, j), Eval(b, z));
    }
  }

  /** At every |a|-th root of unity, the convolution evaluates to the product of the values. */
  lemma EvalConvolution(a: seq<int>, b: seq<int>, z: int)
    requires |a| == |b| && Cong(Pow(z, |b|), 1)
    ensures Cong(Eval(Convolution(a, b), z), Eval(a, z) * Eval(b, z))
  {
    EvalPartial(a, b, |a|, z);
    assert a[..|a|] == a;
    assert Partial(a, b, |a|) == Convolution(a, b);
  }
}
