module InverseTransform {
  import opened Residues
  import opened PowersOfTwo
  import opened Polynomials
  import opened RootTables
  import opened Butterflies
  import opened Transforms
  import opened TransformTheorems

  /** x is n times s, entry by entry, modulo P. */
  ghost predicate Multiple(x: seq<int>, n: int, s: seq<int>) {
    |x| == |s| && forall j :: 0 <= j < |s| ==> Cong(x[j], n * s[j])
  }

  lemma PairInverse(x0: Residue, x1: Residue, s0: Residue, s1: Residue)
    requires Cong(x0, SumDiff(s0, s1).0) && Cong(x1, SumDiff(s0, s1).1)
    ensures Cong(SumDiff(x0, x1).0, 2 * (s0 as int)) && Cong(SumDiff(x0, x1).1, 2 * (s1 as int))
  {
    SumDiffCong(s0, s1);
    SumDiffCong(x0, x1);
    hide SumDiff;
    PairCong(SumDiff(x0, x1).0, SumDiff(x0, x1).1, x0, x1, s0, s1, SumDiff(s0, s1).0, SumDiff(s0, s1).1);
  }

  lemma SumDiffCong(a: Residue, b: Residue)
    ensures Cong(SumDiff(a, b).0, a as int + b) && Cong(SumDiff(a, b).1, a as int - b)
  {}

  lemma PairCong(p: int, q: int, x0: int, x1: int, s0: int, s1: int, y0: int, y1: int)
    requires Cong(p, x0 + x1) && Cong(q, x0 - x1) && Cong(x0, y0) && Cong(x1, y1)
    requires Cong(y0, s0 + s1) && Cong(y1, s0 - s1)
    ensures Cong(p, 2 * s0) && Cong(q, 2 * s1)
  {}

  lemma PairsOfTwo(s: seq<Residue>)
    requires |s| == 2 && Whole(2, 2)
    ensures Pairs(s) == [SumDiff(s[0], s[1]).0, SumDiff(s[0], s[1]).1]
  {
    assert s[2..] == [] && Whole(0, 2);
  }

  lemma SmallForms(s: seq<Residue>, log2: nat)
    requires log2 < 2 && |s| == Pow2(log2) && Whole(|s|, Pow2(log2))
    ensures Pow2(log2) == log2 + 1
    ensures Whole(2, 2)
    ensures Dif(s, log2) == Dit(s, log2) == if log2 == 1 then Pairs(s) else s
  {
    assert Pow2(0) == 1 && Whole(0, 2);
  }

  lemma PairsInverse(x: seq<Residue>, s: seq<Residue>)
    requires |x| == |s| == 2 && Whole(2, 2) && CongSeq(x, Pairs(s))
    ensures Multiple(Pairs(x), 2, s)
  {
    hide Pairs, Cong, SumDiff, Whole;
    PairsOfTwo(x);
    PairsOfTwo(s);
    PairInverse(x[0], x[1], s[0], s[1]);
  }

  lemma SameMultiple(x: seq<Residue>, s: seq<Residue>)
    requires CongSeq(x, s)
    ensures Multiple(x, 1, s)
  {}

  lemma SmallInverse(x: seq<Residue>, s: seq<Residue>, log2: nat)
    requires log2 < 2 && |x| == |s| == Pow2(log2) && Whole(|s|, Pow2(log2))
    requires CongSeq(x, Dif(s, log2))
    ensures Multiple(Dit(x, log2), Pow2(log2), s)
  {
    hide *;
    SmallForms(s, log2);
    SmallForms(x, log2);
    if log2 == 1 {
      PairsInverse(x, s);
    } else {
      SameMultiple(x, s);
    }
  }

  lemma DitUnfold(x: seq<Residue>, log2: nat)
    requires 2 <= log2 < ORDER && |x| == Pow2(log2)
    ensures var m := Pow2(log2 - 2);
      && Pow2(log2) == 4 * m && Whole(|x|, Pow2(log2)) && Whole(4 * m, m)
      && Dit(x, log2) == Block(false, Dit(x, log2 - 2), NegativeRoot(log2), m, m)
  {
    var m := Pow2(log2 - 2);
    assert Pow2(log2) == 2 * Pow2(log2 - 1) == 4 * m;
    WholeSelf(4 * m);
    WholeLevel(4 * m, log2);
    OneBlock(false, Dit(x, log2 - 2), NegativeRoot(log2), m);
  }

  lemma DitFour(q0: seq<Residue>, q1: seq<Residue>, q2: seq<Residue>, q3: seq<Residue>, log2: nat, m: nat)
    requires log2 < ORDER && m == Pow2(log2) && |q0| == |q1| == |q2| == |q3| == m
    ensures Whole(m, m) && Whole(|q0 + q1 + q2 + q3|, m)
    ensures Dit(q0 + q1 + q2 + q3, log2) == Dit(q0, log2) + Dit(q1, log2) + Dit(q2, log2) + Dit(q3, log2)
  {
    hide *;
    WholeSelf(m);
    DitAppend(q0, q1, log2);
    DitAppend(q0 + q1, q2, log2);
    DitAppend(q0 + q1 + q2, q3, log2);
  }

  lemma DitQuarter(x: seq<Residue>, log2: nat, k: nat)
    requires 2 <= log2 < ORDER && |x| == Pow2(log2) && k < 4
    ensures var m := Pow2(log2 - 2);
      && Pow2(log2) == 4 * m && Whole(m, m) && Whole(|x|, m)
      && Quarter(Dit(x, log2 - 2), m, k) == Dit(Quarter(x, m, k), log2 - 2)
  {
    hide Dit, Pow2, Whole;
    var m := Pow2(log2 - 2);
    DitUnfold(x, log2);
    QuartersCover(x, m);
    var q0, q1, q2, q3 := Quarter(x, m, 0), Quarter(x, m, 1), Quarter(x, m, 2), Quarter(x, m, 3);
    DitFour(q0, q1, q2, q3, log2 - 2, m);
    QuarterOfSum(Dit(q0, log2 - 2), Dit(q1, log2 - 2), Dit(q2, log2 - 2), Dit(q3, log2 - 2), m, k);
  }

  lemma ScaleOne(x: int, o: int, n: int, y: int)
    requires Cong(x, n * o) && Cong(o, 1 * y)
    ensures Cong(x, n * y)
  {
    CongMul(n, n, o, y);
  }

  lemma MixedScale(c: (int, int, int, int), o: (int, int, int, int), n: int,
                   a0: int, a1: int, a2: int, a3: int, r: int)
    requires Mixed(o, a0, a1, a2, a3, r, 1)
    requires Cong(c.0, n * o.0) && Cong(c.1, n * o.1) && Cong(c.2, n * o.2) && Cong(c.3, n * o.3)
    ensures Mixed(c, a0, a1, a2, a3, r, n)
  {
    var i: int := Root(2);
    var y0, y1 := a0 + a1 + a2 + a3, (a0 - a1 + a2 - a3) * (r * r);
    var y2, y3 := ((a0 - a2) + (a1 - a3) * i) * r, ((a0 - a2) - (a1 - a3) * i) * (r * (r * r));
    hide Cong;
    ScaleOne(c.0, o.0, n, y0);
    ScaleOne(c.1, o.1, n, y1);
    ScaleOne(c.2, o.2, n, y2);
    ScaleOne(c.3, o.3, n, y3);
  }

  lemma RootsCancel(log2: nat, j: nat)
    requires log2 < ORDER
    ensures Cong(Pow(Root(log2), j) * Pow(NegativeRoot(log2), j), 1)
  {
    var w: int, v: int := Root(log2), NegativeRoot(log2);
    RootInverse(log2);
    PowOfProduct(w, v, j);
    PowCong(w * v, 1, j);
    PowOne(j);
  }

  lemma BlockColumn(s: seq<Residue>, w: Residue, m: nat, j: nat)
    requires |s| == 4 * m && j < m
    ensures var b := Block(true, s, w, m, m); var o := DifColumn(s, w, m, j);
      b[j] == o.0 && b[j + m] == o.1 && b[j + 2 * m] == o.2 && b[j + 3 * m] == o.3
  {
    hide DifColumn;
  }

  lemma InverseColumn(s: seq<Residue>, c: seq<Residue>, log2: nat, m: nat, j: nat)
    requires 2 <= log2 < ORDER && |s| == |c| == 4 * m && j < m
    requires Multiple(c, m, Block(true, s, Root(log2), m, m))
    ensures Unmixed(DitColumn(c, NegativeRoot(log2), m, j), s[j], s[j + m], s[j + 2 * m], s[j + 3 * m], m)
  {
    var w, v := Root(log2), NegativeRoot(log2);
    hide Cong, Mixed, Unmixed, DifColumn, DitButterfly, Pow, Root, NegativeRoot, RootAt, Block;
    BlockColumn(s, w, m, j);
    ColumnCong(s, w, m, j);
    var q := (c[j], c[j + m], c[j + 2 * m], c[j + 3 * m]);
    MixedScale(q, DifColumn(s, w, m, j), m, s[j], s[j + m], s[j + 2 * m], s[j + 3 * m], Pow(w, j));
    RootAtCong(v, j);
    RootsCancel(log2, j);
    DitButterflyCong(q.0, q.1, q.2, q.3, RootAt(v, j), Pow(v, j), Pow(w, j), m,
                     s[j], s[j + m], s[j + 2 * m], s[j + 3 * m]);
  }

  lemma InverseEntry(s: seq<Residue>, o: (Residue, Residue, Residue, Residue), m: nat, i: nat)
    requires |s| == 4 * m && i < 4 * m
    requires var j := Column(i, m); Unmixed(o, s[j], s[j + m], s[j + 2 * m], s[j + 3 * m], m)
    ensures Cong(Pick(o, i, m), (4 * m) * s[i])
  {
    hide Cong;
  }

  lemma BlockEntry(c: seq<Residue>, v: Residue, m: nat, i: nat)
    requires |c| == 4 * m && i < 4 * m
    ensures Block(false, c, v, m, m)[i] == Pick(DitColumn(c, v, m, Column(i, m)), i, m)
  {
    hide DitColumn;
  }

  lemma InverseBlock(s: seq<Residue>, c: seq<Residue>, log2: nat, m: nat)
    requires 2 <= log2 < ORDER && |s| == |c| == 4 * m
    requires Multiple(c, m, Block(true, s, Root(log2), m, m))
    ensures Multiple(Block(false, c, NegativeRoot(log2), m, m), 4 * m, s)
  {
    hide Cong, DitColumn, Unmixed, Block, NegativeRoot, Root;
    var d, n := Block(false, c, NegativeRoot(log2), m, m), 4 * m;
    forall i | 0 <= i < n
      ensures Cong(d[i], n * s[i])
    {
      var j := Column(i, m);
      InverseColumn(s, c, log2, m, j);
      BlockEntry(c, NegativeRoot(log2), m, i);
      InverseEntry(s, DitColumn(c, NegativeRoot(log2), m, j), m, i);
    }
  }

  /** The inverse transform of the forward transform is the length times the input, in the original order. */
  lemma {:induction false} DitInverse(x: seq<Residue>, s: seq<Residue>, log2: nat)
    requires log2 < ORDER && |x| == |s| == Pow2(log2) && Whole(|s|, Pow2(log2))
    requires CongSeq(x, Dif(s, log2))
    ensures Multiple(Dit(x, log2), Pow2(log2), s)
    decreases log2
  {
    hide Dif, Dit, Pow2, Whole, Cong, Block;
    if log2 < 2 {
      SmallInverse(x, s, log2);
    } else {
      var m := Pow2(log2 - 2);
      DitUnfold(x, log2);
      DifUnfold(s, log2);
      var b := Block(true, s, Root(log2), m, m);
      var c := Dit(x, log2 - 2);
      forall k | 0 <= k < 4
        ensures Multiple(Quarter(c, m, k), m, Quarter(b, m, k))
      {
        DitQuarter(x, log2, k);
        DifQuarters(s, log2, k);
        DitInverse(Quarter(x, m, k), Quarter(b, m, k), log2 - 2);
      }
      forall i | 0 <= i < 4 * m
        ensures Cong(c[i], m * b[i])
      {
        var k := if i < m then 0 else if i < 2 * m then 1 else if i < 3 * m then 2 else 3;
        assert c[i] == Quarter(c, m, k)[Column(i, m)] && b[i] == Quarter(b, m, k)[Column(i, m)];
      }
      InverseBlock(s, c, log2, m);
    }
  }
}
