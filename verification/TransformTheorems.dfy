module TransformTheorems {
  import opened Residues
  import opened PowersOfTwo
  import opened Polynomials
  import opened RootTables
  import opened Butterflies
  import opened Transforms

  /** Output quarter k of a stage evaluates the block at Factor(w, k) * y ... */
  ghost function Factor(w: int, k: nat): int
    requires k < 4
  {
    if k == 0 then 1 else if k == 1 then w * w else if k == 2 then w else w * (w * w)
  }

  /** ... and Phase(k) is the quarter power of that factor. */
  ghost function Phase(k: nat): int
    requires k < 4
  {
    if k == 0 then 1 else if k == 1 then -1 else if k == 2 then Root(2) else -(Root(2) as int)
  }

  ghost function Quarter<T>(x: seq<T>, m: nat, k: nat): (q: seq<T>)
    requires |x| == 4 * m && k < 4
    ensures |q| == m
  {
    if k == 0 then x[..m] else if k == 1 then x[m..2 * m] else if k == 2 then x[2 * m..3 * m] else x[3 * m..]
  }

  lemma QuartersCover<T>(x: seq<T>, m: nat)
    requires |x| == 4 * m
    ensures x == Quarter(x, m, 0) + Quarter(x, m, 1) + Quarter(x, m, 2) + Quarter(x, m, 3)
  {}

  lemma ImaginarySquare()
    ensures Cong(Root(2) as int * Root(2), -1)
  {
    RootSquare(2);
  }

  lemma FactorPhase(w: int, m: nat, k: nat)
    requires k < 4 && Cong(Pow(w, m), Root(2))
    ensures Cong(Pow(Factor(w, k), m), Phase(k))
  {
    var i: int, p := Root(2), Pow(w, m);
    PowOne(m);
    PowOfProduct(w, w, m);
    PowOfProduct(w, w * w, m);
    ImaginarySquare();
    CongMul(p, i, p, i);
    CongTrans(p * p, i * i, -1);
    CongMul(p, i, p * p, -1);
  }

  lemma PhaseSquare(k: nat)
    requires k < 4
    ensures Cong(Phase(k) * Phase(k), if k < 2 then 1 else -1)
  {
    ImaginarySquare();
  }

  lemma FourthPower(x: int, m: nat, k: nat)
    requires k < 4 && Cong(Pow(x, m), Phase(k))
    ensures Cong(Pow(x, 4 * m), 1)
  {
    hide *;
    var p, c, e := Pow(x, m), Phase(k), if k < 2 then 1 else -1;
    PowAdd(x, m, m);
    PowAdd(x, 2 * m, 2 * m);
    PhaseSquare(k);
    CongMul(p, c, p, c);
    CongTrans(p * p, c * c, e);
    CongMul(p * p, e, p * p, e);
    assert e * e == 1;
  }

  lemma RootsOfUnity(x: int, y: int, m: nat, k: nat)
    requires k < 4 && Cong(Pow(x, m), Phase(k)) && Cong(Pow(y, m), 1)
    ensures Cong(Pow(x * y, 4 * m), 1)
  {
    PowOfProduct(x, y, 4 * m);
    FourthPower(x, m, k);
    FourthPower(y, m, 0);
    CongMul(Pow(x, 4 * m), 1, Pow(y, 4 * m), 1);
  }

  lemma QuarterIndex<T>(x: seq<T>, m: nat, k: nat, t: nat)
    requires |x| == 4 * m && k < 4 && t < m
    ensures Quarter(x, m, k)[t] == Component((x[t], x[t + m], x[t + 2 * m], x[t + 3 * m]), k)
  {}

  lemma PointQuarter(log2: nat, k: nat, t: nat)
    requires 2 <= log2 < ORDER && k < 4 && t < Pow2(log2 - 2)
    ensures Pow2(log2) == 4 * Pow2(log2 - 2)
    ensures Quarter(Points(log2), Pow2(log2 - 2), k)[t] == Factor(Root(log2), k) * Points(log2 - 2)[t]
  {
    hide Points, Root, Scaled, Pow2;
    var m, w: int := Pow2(log2 - 2), Root(log2);
    PointsUnfold(log2);
    var y := Points(log2 - 2);
    QuarterOfSum(Scaled(1, y), Scaled(w * w, y), Scaled(w, y), Scaled(w * (w * w), y), m, k);
    ScaledEntry(Factor(w, k), y, t);
  }

  lemma ScaledEntry(v: int, y: seq<int>, t: nat)
    requires t < |y|
    ensures Scaled(v, y)[t] == v * y[t]
  {}

  lemma PointsUnfold(log2: nat)
    requires 2 <= log2 < ORDER
    ensures Pow2(log2) == 4 * Pow2(log2 - 2)
    ensures var y := Points(log2 - 2); var w: int := Root(log2);
      Points(log2) == Scaled(1, y) + Scaled(w * w, y) + Scaled(w, y) + Scaled(w * (w * w), y)
  {
    assert Pow2(log2) == 2 * Pow2(log2 - 1) == 4 * Pow2(log2 - 2);
  }

  ghost function Component<T>(o: (T, T, T, T), k: nat): T
    requires k < 4
  {
    if k == 0 then o.0 else if k == 1 then o.1 else if k == 2 then o.2 else o.3
  }

  lemma QuarterOfSum<T>(d0: seq<T>, d1: seq<T>, d2: seq<T>, d3: seq<T>, m: nat, k: nat)
    requires |d0| == |d1| == |d2| == |d3| == m && k < 4
    ensures Quarter(d0 + d1 + d2 + d3, m, k) == Component((d0, d1, d2, d3), k)
  {}

  ghost predicate AllRoots(z: seq<int>, n: nat) {
    forall t :: 0 <= t < |z| ==> Cong(Pow(z[t], n), 1)
  }

  lemma InQuarter(x: seq<int>, m: nat, k: nat, t: nat)
    requires |x| == 4 * m && t < |x|
    requires k == if t < m then 0 else if t < 2 * m then 1 else if t < 3 * m then 2 else 3
    ensures x[t] == Quarter(x, m, k)[Column(t, m)]
  {}

  lemma PointIsRoot(log2: nat, t: nat)
    requires 2 <= log2 < ORDER && t < Pow2(log2)
    requires AllRoots(Points(log2 - 2), Pow2(log2 - 2))
    ensures Cong(Pow(Points(log2)[t], Pow2(log2)), 1)
  {
    hide Pow2, Points, Root, Factor, Phase, Pow, Cong, Quarter;
    var m, w := Pow2(log2 - 2), Root(log2);
    PointQuarter(log2, 0, 0);
    var k := if t < m then 0 else if t < 2 * m then 1 else if t < 3 * m then 2 else 3;
    var u := Column(t, m);
    PointQuarter(log2, k, u);
    InQuarter(Points(log2), m, k, t);
    QuarterPower(log2);
    FactorPhase(w, m, k);
    RootsOfUnity(Factor(w, k), Points(log2 - 2)[u], m, k);
  }

  lemma SmallRoots(log2: nat)
    requires log2 < 2
    ensures AllRoots(Points(log2), Pow2(log2))
  {
    assert Pow2(0) == 1 && Pow2(1) == 2;
    PowOne(1);
    PowOne(2);
    assert Pow(-1, 2) == -1 * Pow(-1, 1) && Pow(-1, 1) == -1 * Pow(-1, 0);
  }

  lemma AllRootsStep(log2: nat)
    requires 2 <= log2 < ORDER && AllRoots(Points(log2 - 2), Pow2(log2 - 2))
    ensures AllRoots(Points(log2), Pow2(log2))
  {
    forall t | 0 <= t < |Points(log2)|
      ensures Cong(Pow(Points(log2)[t], Pow2(log2)), 1)
    {
      PointIsRoot(log2, t);
    }
  }

  /** Every evaluation point is a 2^log2-th root of unity. */
  lemma {:induction false} PointsAreRoots(log2: nat)
    requires log2 < ORDER
    ensures AllRoots(Points(log2), Pow2(log2))
    decreases log2
  {
    hide *;
    if log2 < 2 {
      SmallRoots(log2);
    } else {
      PointsAreRoots(log2 - 2);
      AllRootsStep(log2);
    }
  }

  /** One column of a forward stage, read as four folded and twisted entries. */
  lemma ColumnCong(s: seq<Residue>, w: Residue, m: nat, j: nat)
    requires |s| == 4 * m && j < m
    ensures Mixed(DifColumn(s, w, m, j), s[j], s[j + m], s[j + 2 * m], s[j + 3 * m], Pow(w, j), 1)
  {
    RootAtCong(w, j);
    DifButterflyCong(s[j], s[j + m], s[j + 2 * m], s[j + 3 * m], RootAt(w, j), Pow(w, j));
  }

  /** The k-th combination of four entries that a butterfly forms, before the twist. */
  ghost function Combination(a0: int, a1: int, a2: int, a3: int, k: nat): int
    requires k < 4
  {
    var i: int := Root(2);
    if k == 0 then a0 + a1 + a2 + a3
    else if k == 1 then a0 - a1 + a2 - a3
    else if k == 2 then (a0 - a2) + (a1 - a3) * i
    else (a0 - a2) - (a1 - a3) * i
  }

  lemma CombinationCong(a0: int, a1: int, a2: int, a3: int, k: nat)
    requires k < 4
    ensures var c := Phase(k); Cong(Combination(a0, a1, a2, a3, k), a0 + c * (a1 + c * (a2 + c * a3)))
  {
    var c := Phase(k);
    if k >= 2 {
      ImaginarySquare();
      PhaseFold(a0, a1, a2, a3, c, -1);
      assert Combination(a0, a1, a2, a3, k) == (a0 + -1 * a2) + c * (a1 + -1 * a3);
    } else {
      CongRefl(Combination(a0, a1, a2, a3, k));
    }
  }

  lemma PhaseFold(a0: int, a1: int, a2: int, a3: int, c: int, s: int)
    requires Cong(c * c, s)
    ensures Cong((a0 + s * a2) + c * (a1 + s * a3), a0 + c * (a1 + c * (a2 + c * a3)))
  {
    hide Cong;
    var r, t := a0 + c * a1, a2 + c * a3;
    FoldSquare(a0, a1, t, c);
    FoldScaled(a0, a1, a2, a3, c, s);
    CongRefl(r);
    CongRefl(t);
    CongSym(c * c, s);
    CongMul(s, c * c, t, t);
    CongAdd(r, r, s * t, (c * c) * t);
  }

  lemma FoldSquare(a0: int, a1: int, t: int, c: int)
    ensures a0 + c * (a1 + c * t) == (a0 + c * a1) + (c * c) * t
  {
    Spread(c, a1, c * t);
    Regroup(c, c, t);
  }

  lemma FoldScaled(a0: int, a1: int, a2: int, a3: int, c: int, s: int)
    ensures (a0 + s * a2) + c * (a1 + s * a3) == (a0 + c * a1) + s * (a2 + c * a3)
  {
    Spread(c, a1, s * a3);
    Spread(s, a2, c * a3);
    Regroup(c, s, a3);
    Regroup(s, c, a3);
  }

  lemma Spread(c: int, x: int, y: int)
    ensures c * (x + y) == c * x + c * y
  {}

  lemma Regroup(c: int, x: int, y: int)
    ensures c * (x * y) == (c * x) * y
  {}

  lemma FoldedEntry(s: seq<int>, m: nat, k: nat, j: nat)
    requires |s| == 4 * m && j < m && k < 4
    ensures Cong(Combination(s[j], s[j + m], s[j + 2 * m], s[j + 3 * m], k), Folded(s, m, Phase(k))[j])
  {
    hide Cong, Phase, Combination;
    CombinationCong(s[j], s[j + m], s[j + 2 * m], s[j + 3 * m], k);
  }

  lemma TwistEntry(w: int, k: nat, j: nat)
    requires k < 4
    ensures var r := Pow(w, j);
      Pow(Factor(w, k), j) == if k == 0 then 1 else if k == 1 then r * r else if k == 2 then r else r * (r * r)
  {
    PowOne(j);
    PowOfProduct(w, w, j);
    PowOfProduct(w, w * w, j);
  }

  lemma MixedComponent(o: (int, int, int, int), a0: int, a1: int, a2: int, a3: int, w: int, j: nat, k: nat)
    requires k < 4 && Mixed(o, a0, a1, a2, a3, Pow(w, j), 1)
    ensures Cong(Component(o, k), Combination(a0, a1, a2, a3, k) * Pow(Factor(w, k), j))
  {
    hide Cong, Pow, Factor, Root;
    TwistEntry(w, k, j);
  }

  lemma FoldedComponent(o: (int, int, int, int), s: seq<int>, w: int, m: nat, k: nat, j: nat)
    requires |s| == 4 * m && j < m && k < 4
    requires Mixed(o, s[j], s[j + m], s[j + 2 * m], s[j + 3 * m], Pow(w, j), 1)
    ensures Cong(Component(o, k), Folded(s, m, Phase(k))[j] * Pow(Factor(w, k), j))
  {
    hide *;
    var a0, a1, a2, a3 := s[j], s[j + m], s[j + 2 * m], s[j + 3 * m];
    var q := Pow(Factor(w, k), j);
    MixedComponent(o, a0, a1, a2, a3, w, j, k);
    FoldedEntry(s, m, k, j);
    CongRefl(q);
    CongMul(Combination(a0, a1, a2, a3, k), Folded(s, m, Phase(k))[j], q, q);
    CongTrans(Component(o, k), Combination(a0, a1, a2, a3, k) * q, Folded(s, m, Phase(k))[j] * q);
  }

  lemma QuarterEntry(s: seq<Residue>, w: Residue, m: nat, k: nat, j: nat)
    requires |s| == 4 * m && j < m && k < 4
    ensures Quarter(Block(true, s, w, m, m), m, k)[j] == Component(DifColumn(s, w, m, j), k)
  {
    hide DifColumn;
    QuarterIndex(Block(true, s, w, m, m), m, k, j);
  }

  /** Output quarter k of one stage, evaluated at y, is the block evaluated at Factor(k) * y. */
  lemma QuarterEval(s: seq<Residue>, log2: nat, k: nat, y: int)
    requires 2 <= log2 < ORDER && |s| == 4 * Pow2(log2 - 2) && k < 4
    requires Cong(Pow(y, Pow2(log2 - 2)), 1)
    ensures var m := Pow2(log2 - 2);
      Cong(Eval(Quarter(Block(true, s, Root(log2), m, m), m, k), y), Eval(s, Factor(Root(log2), k) * y))
  {
    var m, w := Pow2(log2 - 2), Root(log2);
    var q := Quarter(Block(true, s, w, m, m), m, k);
    forall j | 0 <= j < m
      ensures Cong(q[j], Twist(Folded(s, m, Phase(k)), Factor(w, k), 0)[j])
    {
      QuarterEntry(s, w, m, k, j);
      ColumnCong(s, w, m, j);
      FoldedComponent(DifColumn(s, w, m, j), s, w, m, k, j);
    }
    QuarterPower(log2);
    FactorPhase(w, m, k);
    FoldEval(s, q, m, Factor(w, k), Phase(k), y);
  }

  lemma OneBlock(forward: bool, s: seq<Residue>, w: Residue, m: nat)
    requires m > 0 && |s| == 4 * m
    ensures Whole(|s|, 4 * m)
    ensures Stage(forward, s, w, m, m) == Block(forward, s, w, m, m)
  {
    assert Whole(0, 4 * m);
    assert s[..4 * m] == s && s[4 * m..] == [];
    assert Stage(forward, [], w, m, m) == [];
  }

  lemma {:induction false} WholeSelf(m: nat)
    requires m > 0
    ensures Whole(m, m)
  {
    assert Whole(0, m);
  }

  lemma DifFour(q0: seq<Residue>, q1: seq<Residue>, q2: seq<Residue>, q3: seq<Residue>, log2: nat, m: nat)
    requires log2 < ORDER && m == Pow2(log2) && |q0| == |q1| == |q2| == |q3| == m
    ensures Whole(m, m) && Whole(|q0 + q1 + q2 + q3|, m)
    ensures Dif(q0 + q1 + q2 + q3, log2) == Dif(q0, log2) + Dif(q1, log2) + Dif(q2, log2) + Dif(q3, log2)
  {
    hide *;
    WholeSelf(m);
    DifAppend(q0, q1, log2);
    DifAppend(q0 + q1, q2, log2);
    DifAppend(q0 + q1 + q2, q3, log2);
  }

  lemma DifUnfold(s: seq<Residue>, log2: nat)
    requires 2 <= log2 < ORDER && |s| == Pow2(log2)
    ensures var m := Pow2(log2 - 2);
      && Pow2(log2) == 4 * m && Whole(4 * m, 4 * m) && Whole(|s|, Pow2(log2)) && Whole(4 * m, m)
      && Dif(s, log2) == Dif(Block(true, s, Root(log2), m, m), log2 - 2)
  {
    var m := Pow2(log2 - 2);
    assert Pow2(log2) == 2 * Pow2(log2 - 1) == 4 * m;
    WholeSelf(4 * m);
    WholeLevel(4 * m, log2);
    OneBlock(true, s, Root(log2), m);
  }

  /** On one block, the remaining stages work on the four output quarters separately. */
  lemma DifQuarters(s: seq<Residue>, log2: nat, k: nat)
    requires 2 <= log2 < ORDER && k < 4 && |s| == Pow2(log2)
    ensures var m := Pow2(log2 - 2);
      && Pow2(log2) == 4 * m && Whole(m, m) && Whole(|s|, Pow2(log2))
      && Quarter(Dif(s, log2), m, k) == Dif(Quarter(Block(true, s, Root(log2), m, m), m, k), log2 - 2)
  {
    hide Dif, Block, Pow2, Whole, Points;
    var m, w := Pow2(log2 - 2), Root(log2);
    DifUnfold(s, log2);
    var b := Block(true, s, w, m, m);
    var q0, q1, q2, q3 := Quarter(b, m, 0), Quarter(b, m, 1), Quarter(b, m, 2), Quarter(b, m, 3);
    QuartersCover(b, m);
    DifFour(q0, q1, q2, q3, log2 - 2, m);
    QuarterOfSum(Dif(q0, log2 - 2), Dif(q1, log2 - 2), Dif(q2, log2 - 2), Dif(q3, log2 - 2), m, k);
  }

  lemma SmallDif(s: seq<Residue>, log2: nat)
    requires log2 < 2 && |s| == Pow2(log2)
    ensures Whole(|s|, Pow2(log2))
    ensures forall t :: 0 <= t < |s| ==> Cong(Dif(s, log2)[t], Eval(s, Points(log2)[t]))
  {
    assert Pow2(0) == 1 && Pow2(1) == 2 && Whole(0, 1) && Whole(0, 2);
    if log2 == 1 {
      assert s[2..] == [] && s[1..][1..] == [];
      assert Dif(s, 1) == [SumDiff(s[0], s[1]).0, SumDiff(s[0], s[1]).1];
      forall z | z == 1 || z == -1
        ensures Eval(s, z) == s[0] + z * s[1]
      {
        assert Eval(s[1..], z) == s[1] + z * Eval([], z);
      }
    } else {
      assert s[1..] == [];
    }
  }

  ghost predicate Evaluates(d: seq<int>, s: seq<int>, z: seq<int>) {
    |d| == |z| && forall t :: 0 <= t < |z| ==> Cong(d[t], Eval(s, z[t]))
  }

  ghost predicate QuartersEvaluate(s: seq<Residue>, log2: nat)
    requires 2 <= log2 < ORDER && |s| == 4 * Pow2(log2 - 2) && Whole(Pow2(log2 - 2), Pow2(log2 - 2))
  {
    var m := Pow2(log2 - 2);
    var b := Block(true, s, Root(log2), m, m);
    forall k {:trigger Quarter(b, m, k)} :: 0 <= k < 4 ==>
      Evaluates(Dif(Quarter(b, m, k), log2 - 2), Quarter(b, m, k), Points(log2 - 2))
  }

  lemma DifEvalStep(s: seq<Residue>, log2: nat, t: nat)
    requires 2 <= log2 < ORDER && |s| == Pow2(log2) == 4 * Pow2(log2 - 2) && t < |s|
    requires Whole(|s|, Pow2(log2)) && Whole(Pow2(log2 - 2), Pow2(log2 - 2))
    requires QuartersEvaluate(s, log2)
    ensures Cong(Dif(s, log2)[t], Eval(s, Points(log2)[t]))
  {
    hide Dif, Block, Pow2, Whole, Points, Cong, Eval, Pow, Factor;
    var m, w := Pow2(log2 - 2), Root(log2);
    var k := if t < m then 0 else if t < 2 * m then 1 else if t < 3 * m then 2 else 3;
    var u := Column(t, m);
    var q := Quarter(Block(true, s, w, m, m), m, k);
    DifQuarters(s, log2, k);
    assert Dif(s, log2)[t] == Quarter(Dif(s, log2), m, k)[u] == Dif(q, log2 - 2)[u];
    PointQuarter(log2, k, u);
    assert Points(log2)[t] == Quarter(Points(log2), m, k)[u];
    var y := Points(log2 - 2)[u];
    PointsAreRoots(log2 - 2);
    QuarterEval(s, log2, k, y);
    CongTrans(Dif(q, log2 - 2)[u], Eval(q, y), Eval(s, Factor(w, k) * y));
  }

  /** The forward transform evaluates its input at the 2^log2 points, with no reordering left to do. */
  lemma {:induction false} DifEval(s: seq<Residue>, log2: nat)
    requires log2 < ORDER && |s| == Pow2(log2)
    ensures Whole(|s|, Pow2(log2))
    ensures Evaluates(Dif(s, log2), s, Points(log2))
    decreases log2
  {
    hide Dif, Block, Pow2, Whole, Points, Cong, Eval, Pow;
    if log2 < 2 {
      SmallDif(s, log2);
    } else {
      var m, w := Pow2(log2 - 2), Root(log2);
      DifUnfold(s, log2);
      WholeSelf(m);
      var b := Block(true, s, w, m, m);
      forall k | 0 <= k < 4
        ensures Evaluates(Dif(Quarter(b, m, k), log2 - 2), Quarter(b, m, k), Points(log2 - 2))
      {
        DifEval(Quarter(b, m, k), log2 - 2);
      }
      forall t | 0 <= t < |s|
        ensures Cong(Dif(s, log2)[t], Eval(s, Points(log2)[t]))
      {
        DifEvalStep(s, log2, t);
      }
    }
  }
}
