module Ntt {
  import opened Words
  import opened Residues
  import opened PowersOfTwo
  import opened Polynomials
  import opened CyclicConvolutions
  import opened RootTables
  import opened Butterflies
  import opened Transforms
  import opened TransformTheorems
  import opened InverseTransform

  /** The cyclic convolution of a and b modulo P, entries in [0, P). */
  ghost function ConvolutionModP(a: seq<Residue>, b: seq<Residue>): (c: seq<Residue>)
    requires |a| == |b|
    ensures |c| == |a| && forall t :: 0 <= t < |c| ==> c[t] < P
  {
    seq(|a|, t requires 0 <= t < |a| => Convolution(a, b)[t] % P)
  }

  function Products(a: seq<Residue>, b: seq<Residue>): (c: seq<Residue>)
    requires |a| == |b|
    ensures |c| == |a|
  {
    seq(|a|, t requires 0 <= t < |a| => ModMul(a[t], b[t]))
  }

  lemma ProductEntry(x: Residue, y: Residue, d: Residue, e: int, f: int, g: int, h: int)
    requires Cong(x, e) && Cong(y, f) && Cong(g, e * f) && Cong(h, g) && Cong(d, h)
    ensures Cong(ModMul(x, y), d)
  {
    hide *;
    MulCong(x, e, y, f);
    CongSym(g, e * f);
    CongSym(h, g);
    CongSym(d, h);
    CongTrans(ModMul(x, y), e * f, g);
    CongTrans(ModMul(x, y), g, h);
    CongTrans(ModMul(x, y), h, d);
  }

  /** Multiplying transforms entry by entry is transforming the convolution. */
  lemma TransformOfConvolution(a: seq<Residue>, b: seq<Residue>, log2: nat)
    requires log2 < ORDER && |a| == |b| == Pow2(log2) && Whole(|a|, Pow2(log2))
    ensures CongSeq(Products(Dif(a, log2), Dif(b, log2)), Dif(ConvolutionModP(a, b), log2))
  {
    hide Dif, Pow2, Whole, Points, Cong, Eval, Pow, Convolution, ModMul;
    var c := ConvolutionModP(a, b);
    DifEval(a, log2);
    DifEval(b, log2);
    DifEval(c, log2);
    PointsAreRoots(log2);
    forall t | 0 <= t < |a|
      ensures Cong(ModMul(Dif(a, log2)[t], Dif(b, log2)[t]), Dif(c, log2)[t])
    {
      var z := Points(log2)[t];
      EvalConvolution(a, b, z);
      ReducedEval(a, b, z);
      ProductEntry(Dif(a, log2)[t], Dif(b, log2)[t], Dif(c, log2)[t],
                   Eval(a, z), Eval(b, z), Eval(Convolution(a, b), z), Eval(c, z));
    }
  }

  lemma ReducedEval(a: seq<Residue>, b: seq<Residue>, z: int)
    requires |a| == |b|
    ensures Cong(Eval(ConvolutionModP(a, b), z), Eval(Convolution(a, b), z))
  {
    hide Eval, Convolution;
    EvalCong(ConvolutionModP(a, b), Convolution(a, b), z);
  }

  lemma ReducedProduct(x: Residue, v: Residue)
    requires v < P && (v == 1 ==> x < P)
    ensures ModMul(x, v) < P
  {}

  lemma CancelUnit(y: int, n: int, v: int, c: int)
    requires Cong(y, (n * c) * v) && Cong(n * v, 1)
    ensures Cong(y, c)
  {
    CongMul(n * v, 1, c, c);
    assert (n * c) * v == (n * v) * c;
  }

  lemma SameResidue(y: int, c: int)
    requires Cong(y, c) && 0 <= y < P && 0 <= c < P
    ensures y == c
  {}

  lemma Normalise(x: Residue, n: int, v: Residue, c: Residue)
    requires Cong(x, n * (c as int)) && Cong(n * (v as int), 1) && c < P && v < P
    requires v == 1 ==> x < P
    ensures ModMul(x, v) == c
  {
    hide Cong, ModMul;
    CongRefl(v);
    MulCong(x, n * (c as int), v, v);
    CancelUnit(ModMul(x, v), n, v, c);
    ReducedProduct(x, v);
    SameResidue(ModMul(x, v), c);
  }

  /** The three transforms and the final scaling yield the convolution, fully reduced. */
  lemma ConvolutionByTransforms(a: seq<Residue>, b: seq<Residue>, log2: nat, t: nat)
    requires log2 < ORDER && |a| == |b| == Pow2(log2) && Whole(|a|, Pow2(log2)) && t < |a|
    requires forall k :: 0 <= k < |a| ==> a[k] < P && b[k] < P
    ensures ModMul(Dit(Products(Dif(a, log2), Dif(b, log2)), log2)[t], InverseOfPower2(log2))
         == ConvolutionModP(a, b)[t]
  {
    hide Dif, Dit, Pow2, Whole, Cong, ModMul, ConvolutionModP, InverseOfPower2;
    var x := Products(Dif(a, log2), Dif(b, log2));
    var c := ConvolutionModP(a, b);
    TransformOfConvolution(a, b, log2);
    DitInverse(x, c, log2);
    InversePower(log2);
    InverseRange(log2);
    if log2 == 0 { LengthOne(a, b); }
    Normalise(Dit(x, log2)[t], Pow2(log2), InverseOfPower2(log2), c[t]);
  }

  lemma InverseRange(k: nat)
    requires k < ORDER
    ensures InverseOfPower2(k) < P && (InverseOfPower2(k) == 1 ==> k == 0)
  {}

  lemma LengthOne(a: seq<Residue>, b: seq<Residue>)
    requires |a| == |b| == Pow2(0) && Whole(|a|, Pow2(0)) && a[0] < P && b[0] < P
    ensures Pow2(0) == 1
    ensures Dit(Products(Dif(a, 0), Dif(b, 0)), 0)[0] < P
  {
    assert ModMul(a[0], b[0]) < P;
  }

  /** x with o written to the column starting at i. */
  function PutColumn(x: seq<Residue>, m: nat, i: nat, o: (Residue, Residue, Residue, Residue)): (y: seq<Residue>)
    requires i + 3 * m < |x|
    ensures |y| == |x|
  {
    x[i := o.0][i + m := o.1][i + 2 * m := o.2][i + 3 * m := o.3]
  }

  /** One forward butterfly, in place, on the column at i0. */
  method DifStep(a: array<Residue>, i0: nat, m: nat, root: Residue, root2: Residue, root3: Residue)
    requires m > 0 && i0 + 3 * m < a.Length
    requires root2 == ModMul(root, root) && root3 == ModMul(root, root2)
    modifies a
    ensures var o := old(DifButterfly(a[i0], a[i0 + m], a[i0 + 2 * m], a[i0 + 3 * m], root));
      a[..] == PutColumn(old(a[..]), m, i0, o)
  {
    hide ModAdd, ModSub, ModMul, Root;
    var i1 := i0 + m;
    var i2 := i1 + m;
    var i3 := i2 + m;
    var a0, a1, a2, a3 := a[i0], a[i1], a[i2], a[i3];
    var t02 := ModAdd(a0, a2);
    var t13 := ModAdd(a1, a3);
    a[i0] := ModAdd(t02, t13);
    a[i1] := ModMul(ModSub(t02, t13), root2);
    t02 := ModSub(a0, a2);
    t13 := ModMul(ModSub(a1, a3), Root(2));
    a[i2] := ModMul(ModAdd(t02, t13), root);
    a[i3] := ModMul(ModSub(t02, t13), root3);
  }

  /** One inverse butterfly, in place, on the column at i0. */
  method DitStep(a: array<Residue>, i0: nat, m: nat, root: Residue, root2: Residue, root3: Residue)
    requires m > 0 && i0 + 3 * m < a.Length
    requires root2 == ModMul(root, root) && root3 == ModMul(root2, root)
    modifies a
    ensures var o := old(DitButterfly(a[i0], a[i0 + m], a[i0 + 2 * m], a[i0 + 3 * m], root));
      a[..] == PutColumn(old(a[..]), m, i0, o)
  {
    hide ModAdd, ModSub, ModMul, NegativeRoot;
    var i1 := i0 + m;
    var i2 := i1 + m;
    var i3 := i2 + m;
    var a0 := a[i0];
    var a2 := ModMul(a[i1], root2);
    var a1 := ModMul(a[i2], root);
    var a3 := ModMul(a[i3], root3);
    var t02 := ModAdd(a0, a2);
    var t13 := ModAdd(a1, a3);
    a[i0] := ModAdd(t02, t13);
    a[i2] := ModSub(t02, t13);
    t02 := ModSub(a0, a2);
    t13 := ModSub(a1, a3);
    t13 := ModMul(t13, NegativeRoot(2));
    a[i1] := ModAdd(t02, t13);
    a[i3] := ModSub(t02, t13);
  }

  function ColumnResult(forward: bool, s: seq<Residue>, w: Residue, m: nat, c: nat)
    : (o: (Residue, Residue, Residue, Residue))
    requires |s| == 4 * m && c < m
  {
    if forward then DifColumn(s, w, m, c) else DitColumn(s, w, m, c)
  }

  lemma BlockStep(forward: bool, s: seq<Residue>, w: Residue, m: nat, j: nat)
    requires |s| == 4 * m && j < m
    ensures PutColumn(Block(forward, s, w, m, j), m, j, ColumnResult(forward, s, w, m, j))
         == Block(forward, s, w, m, j + 1)
  {
    hide DifColumn, DitColumn;
    var b, c := Block(forward, s, w, m, j), Block(forward, s, w, m, j + 1);
    var o := ColumnResult(forward, s, w, m, j);
    forall i | 0 <= i < 4 * m
      ensures PutColumn(b, m, j, o)[i] == c[i]
    {
      if Column(i, m) == j {
        assert c[i] == Pick(o, i, m);
        assert i == j || i == j + m || i == j + 2 * m || i == j + 3 * m;
      } else {
        assert PutColumn(b, m, j, o)[i] == b[i];
      }
    }
  }

  lemma BlockUntouched(forward: bool, s: seq<Residue>, w: Residue, m: nat, j: nat)
    requires |s| == 4 * m && j < m
    ensures var b := Block(forward, s, w, m, j);
      b[j] == s[j] && b[j + m] == s[j + m] && b[j + 2 * m] == s[j + 2 * m] && b[j + 3 * m] == s[j + 3 * m]
  {
    hide DifColumn, DitColumn;
  }

  lemma PutInFront(b: seq<Residue>, rest: seq<Residue>, m: nat, j: nat, o: (Residue, Residue, Residue, Residue))
    requires |b| == 4 * m && j < m
    ensures PutColumn(b + rest, m, j, o) == PutColumn(b, m, j, o) + rest
  {}

  /** Carrying out column j of the first block moves that block from j to j + 1 finished columns. */
  lemma StageStep(forward: bool, s: seq<Residue>, x: seq<Residue>, w: Residue, m: nat, j: nat)
    requires m > 0 && |s| == |x| && Whole(|s|, 4 * m) && |s| > 0 && j < m
    requires x == Stage(forward, s, w, m, j)
    ensures x[j] == s[j] && x[j + m] == s[j + m] && x[j + 2 * m] == s[j + 2 * m] && x[j + 3 * m] == s[j + 3 * m]
    ensures var y := PutColumn(x, m, j, ColumnResult(forward, s[..4 * m], w, m, j));
      && y[..4 * m] == Block(forward, s[..4 * m], w, m, j + 1)
      && y[4 * m..] == Stage(forward, s[4 * m..], w, m, j)
  {
    hide ColumnResult, Block, Stage, PutColumn, Whole;
    StageHead(forward, s, w, m, j);
    WholeRest(|s|, 4 * m);
    var b := Block(forward, s[..4 * m], w, m, j);
    var o := ColumnResult(forward, s[..4 * m], w, m, j);
    BlockUntouched(forward, s[..4 * m], w, m, j);
    BlockStep(forward, s[..4 * m], w, m, j);
    PutInFront(b, Stage(forward, s[4 * m..], w, m, j), m, j, o);
  }

  /** After column j of the block at r is done, one more block of a is at j + 1 finished columns. */
  lemma RowStep(forward: bool, s: seq<Residue>, x: seq<Residue>, y: seq<Residue>, w: Residue, m: nat, j: nat, r: nat)
    requires m > 0 && |s| == |x| == |y| && r < |s| && j < m
    requires Whole(r, 4 * m) && Whole(|s| - r, 4 * m)
    requires x[..r] == Stage(forward, s[..r], w, m, j + 1) && x[r..] == Stage(forward, s[r..], w, m, j)
    requires r + 4 * m <= |s|
    requires y[..r] == x[..r] && y[r..] == PutColumn(x[r..], m, j, ColumnResult(forward, s[r..][..4 * m], w, m, j))
    ensures Whole(r + 4 * m, 4 * m) && Whole(|s| - r - 4 * m, 4 * m)
    ensures y[..r + 4 * m] == Stage(forward, s[..r + 4 * m], w, m, j + 1)
    ensures y[r + 4 * m..] == Stage(forward, s[r + 4 * m..], w, m, j)
  {
    hide ColumnResult, Block, PutColumn, Stage, Whole;
    StageStep(forward, s[r..], x[r..], w, m, j);
    var b := s[r..][..4 * m];
    WholeSelf(4 * m);
    WholeSum(r, 4 * m, 4 * m);
    WholeRest(|s| - r, 4 * m);
    StageHead(forward, b, w, m, j + 1);
    StageEmpty(forward, w, m, j + 1);
    assert b[..4 * m] == b && b[4 * m..] == [];
    StageAppend(forward, s[..r], b, w, m, j + 1);
    assert s[..r + 4 * m] == s[..r] + b;
    assert y[..r + 4 * m] == y[..r] + y[r..][..4 * m];
    assert y[r + 4 * m..] == y[r..][4 * m..];
    assert s[r + 4 * m..] == s[r..][4 * m..];
  }

  lemma WholeRest(n: nat, m: nat)
    requires m > 0 && n > 0 && Whole(n, m)
    ensures n >= m && Whole(n - m, m)
  {}

  lemma ColumnLink(forward: bool, s: seq<Residue>, x: seq<Residue>, y: seq<Residue>, w: Residue, m: nat, j: nat, r: nat,
                   o: (Residue, Residue, Residue, Residue))
    requires m > 0 && |s| == |x| == |y| && r + 4 * m <= |s| && j < m
    requires var i := r + j;
      && x[i] == s[i] && x[i + m] == s[i + m]
      && x[i + 2 * m] == s[i + 2 * m] && x[i + 3 * m] == s[i + 3 * m]
    requires var i := r + j;
      o == if forward then DifButterfly(x[i], x[i + m], x[i + 2 * m], x[i + 3 * m], RootAt(w, j))
           else DitButterfly(x[i], x[i + m], x[i + 2 * m], x[i + 3 * m], RootAt(w, j))
    requires y == PutColumn(x, m, r + j, o)
    ensures o == ColumnResult(forward, s[r..][..4 * m], w, m, j)
    ensures y[..r] == x[..r] && y[r..] == PutColumn(x[r..], m, j, o)
  {
    hide DifButterfly, DitButterfly, RootAt;
  }

  ghost function Butterfly(forward: bool, x: seq<Residue>, m: nat, i: nat, r: Residue)
    : (o: (Residue, Residue, Residue, Residue))
    requires i + 3 * m < |x|
  {
    if forward then DifButterfly(x[i], x[i + m], x[i + 2 * m], x[i + 3 * m], r)
    else DitButterfly(x[i], x[i + m], x[i + 2 * m], x[i + 3 * m], r)
  }

  /** The invariant of the innermost loop: column j is finished in the blocks before r. */
  ghost predicate RowsDone(forward: bool, s: seq<Residue>, x: seq<Residue>, w: Residue, m: nat, j: nat, r: nat) {
    && m > 0 && j < m && r <= |s| == |x|
    && Whole(r, 4 * m) && Whole(|s| - r, 4 * m)
    && x[..r] == Stage(forward, s[..r], w, m, j + 1)
    && x[r..] == Stage(forward, s[r..], w, m, j)
  }

  lemma RowsStart(forward: bool, s: seq<Residue>, x: seq<Residue>, w: Residue, m: nat, j: nat)
    requires m > 0 && j < m && |s| == |x| && Whole(|s|, 4 * m) && x == Stage(forward, s, w, m, j)
    ensures RowsDone(forward, s, x, w, m, j, 0)
  {
    StageEmpty(forward, w, m, j + 1);
    assert x[..0] == [] == s[..0] && x[0..] == x && s[0..] == s;
  }

  lemma RowsEnd(forward: bool, s: seq<Residue>, x: seq<Residue>, w: Residue, m: nat, j: nat)
    requires RowsDone(forward, s, x, w, m, j, |s|)
    ensures x == Stage(forward, s, w, m, j + 1)
  {
    assert x[..|s|] == x && s[..|s|] == s;
  }

  lemma RowsStep(forward: bool, s: seq<Residue>, x: seq<Residue>, y: seq<Residue>, w: Residue, m: nat, j: nat, r: nat)
    requires RowsDone(forward, s, x, w, m, j, r) && r < |s|
    requires r + j + 3 * m < |x| && y == PutColumn(x, m, r + j, Butterfly(forward, x, m, r + j, RootAt(w, j)))
    ensures RowsDone(forward, s, y, w, m, j, r + 4 * m)
  {
    hide DifButterfly, DitButterfly, RootAt, Stage, Block, PutColumn, ColumnResult;
    StageStep(forward, s[r..], x[r..], w, m, j);
    ColumnLink(forward, s, x, y, w, m, j, r, Butterfly(forward, x, m, r + j, RootAt(w, j)));
    RowStep(forward, s, x, y, w, m, j, r);
  }

  lemma RowsRoom(forward: bool, s: seq<Residue>, x: seq<Residue>, w: Residue, m: nat, j: nat, r: nat)
    requires RowsDone(forward, s, x, w, m, j, r)
    ensures r <= |s| && (r < |s| ==> r + 4 * m <= |s|)
  {}

  /** The innermost loop of the forward transform: column j of every block. */
  method DifRows(a: array<Residue>, m: nat, j: nat, root: Residue, root2: Residue, root3: Residue,
                 ghost s: seq<Residue>, ghost w: Residue)
    requires m > 0 && j < m && |s| == a.Length && Whole(a.Length, 4 * m)
    requires root == RootAt(w, j) && root2 == ModMul(root, root) && root3 == ModMul(root, root2)
    requires a[..] == Stage(true, s, w, m, j)
    modifies a
    ensures a[..] == Stage(true, s, w, m, j + 1)
  {
    hide DifButterfly, RootAt, Stage, ModMul, PutColumn;
    var r, i0 := 0, j;
    RowsStart(true, s, a[..], w, m, j);
    hide RowsDone;
    while r < a.Length
      invariant i0 == j + r && RowsDone(true, s, a[..], w, m, j, r)
    {
      ghost var x := a[..];
      RowsRoom(true, s, x, w, m, j, r);
      DifStep(a, i0, m, root, root2, root3);
      RowsStep(true, s, x, a[..], w, m, j, r);
      r := r + 4 * m;
      i0 := i0 + 4 * m;
    }
    RowsRoom(true, s, a[..], w, m, j, r);
    RowsEnd(true, s, a[..], w, m, j);
  }

  /** The innermost loop of the inverse transform: column j of every block. */
  method DitRows(a: array<Residue>, m: nat, j: nat, root: Residue, root2: Residue, root3: Residue,
                 ghost s: seq<Residue>, ghost w: Residue)
    requires m > 0 && j < m && |s| == a.Length && Whole(a.Length, 4 * m)
    requires root == RootAt(w, j) && root2 == ModMul(root, root) && root3 == ModMul(root2, root)
    requires a[..] == Stage(false, s, w, m, j)
    modifies a
    ensures a[..] == Stage(false, s, w, m, j + 1)
  {
    hide DitButterfly, RootAt, Stage, ModMul, PutColumn;
    var r, i0 := 0, j;
    RowsStart(false, s, a[..], w, m, j);
    hide RowsDone;
    while r < a.Length
      invariant i0 == j + r && RowsDone(false, s, a[..], w, m, j, r)
    {
      ghost var x := a[..];
      RowsRoom(false, s, x, w, m, j, r);
      DitStep(a, i0, m, root, root2, root3);
      RowsStep(false, s, x, a[..], w, m, j, r);
      r := r + 4 * m;
      i0 := i0 + 4 * m;
    }
    RowsRoom(false, s, a[..], w, m, j, r);
    RowsEnd(false, s, a[..], w, m, j);
  }

  lemma ModMulCommutes(x: Residue, y: Residue)
    ensures ModMul(x, y) == ModMul(y, x)
  {
    assert (x as int) * (y as int) == (y as int) * (x as int);
  }

  /** The forward transform, in place; the output order is the one of Points. */
  method NttDif4Core(a: array<Residue>, log2: nat)
    requires log2 < ORDER && a.Length == Pow2(log2)
    modifies a
    ensures Whole(a.Length, Pow2(log2))
    ensures a[..] == Dif(old(a[..]), log2)
  {
    hide Dif, Stage, RootAt, ModMul, Root, Pairs, Whole, Pow2;
    var act := log2;
    ghost var s0 := a[..];
    WholeSelf(Pow2(log2));
    while act >= 2
      invariant 0 <= act <= log2 && act % 2 == log2 % 2
      invariant Whole(a.Length, Pow2(act)) && Dif(a[..], act) == Dif(s0, log2)
    {
      var m := Pow2(act - 2);
      var dRoot := Root(act);
      var root, root2, root3 := 1, 1, 1;
      ghost var s := a[..];
      WholeLevel(a.Length, act);
      StageNone(true, s, dRoot, m);
      RootStart(dRoot);
      var j := 0;
      while j < m
        invariant j <= m && a.Length == |s| && a[..] == Stage(true, s, dRoot, m, j)
        invariant root == RootAt(dRoot, j) && root2 == ModMul(root, root) && root3 == ModMul(root, root2)
      {
        DifRows(a, m, j, root, root2, root3, s, dRoot);
        RootNext(dRoot, j);
        root := ModMul(root, dRoot);
        root2 := ModMul(root, root);
        root3 := ModMul(root, root2);
        j := j + 1;
      }
      DifLevel(s, act);
      act := act - 2;
    }
    LowLevel(a[..], act);
    if log2 % 2 == 1 {
      PairLoop(a);
    }
  }

  lemma RootStart(w: Residue)
    ensures RootAt(w, 0) == 1 && ModMul(1, 1) == 1
  {}

  lemma RootNext(w: Residue, j: nat)
    ensures RootAt(w, j + 1) == ModMul(RootAt(w, j), w)
  {}

  /** Sum and difference, in place; the sum may come out as P itself. */
  method ModSumDiff(a: array<Residue>, i: nat, k: nat)
    requires i < a.Length && k < a.Length && i != k
    modifies a
    ensures a[..] == old(a[..])[i := old(SumDiff(a[i], a[k]).0)][k := old(SumDiff(a[i], a[k]).1)]
  {
    hide ModSub;
    var diff := ModSub(a[i], a[k]);
    var sum: Word32 := a[i] as int + a[k];
    a[i] := if sum > P then sum - P else sum;
    a[k] := diff;
  }

  /** The radix-2 step on all neighbouring pairs. */
  method PairLoop(a: array<Residue>)
    requires Whole(a.Length, 2)
    modifies a
    ensures a[..] == Pairs(old(a[..]))
  {
    hide SumDiff;
    ghost var s := a[..];
    var i := 0;
    while i < a.Length
      invariant i <= a.Length && Whole(i, 2) && Whole(a.Length - i, 2)
      invariant a[..i] == Pairs(s[..i]) && a[i..] == s[i..]
    {
      ghost var x := a[..];
      ModSumDiff(a, i, i + 1);
      PairsStep(s, x, a[..], i);
      i := i + 2;
    }
    assert a[..i] == a[..] && s[..i] == s;
  }

  lemma PairsStep(s: seq<Residue>, x: seq<Residue>, y: seq<Residue>, i: nat)
    requires |s| == |x| == |y| && i + 2 <= |s| && Whole(i, 2) && Whole(|s| - i, 2)
    requires x[..i] == Pairs(s[..i]) && x[i..] == s[i..]
    requires y == x[i := SumDiff(x[i], x[i + 1]).0][i + 1 := SumDiff(x[i], x[i + 1]).1]
    ensures Whole(i + 2, 2) && Whole(|s| - i - 2, 2)
    ensures y[..i + 2] == Pairs(s[..i + 2]) && y[i + 2..] == s[i + 2..]
  {
    hide SumDiff;
    var p := s[i..i + 2];
    assert x[i] == x[i..][0] == s[i] && x[i + 1] == x[i..][1] == s[i + 1];
    assert Whole(0, 2) && Whole(2, 2);
    PairsAppend(s[..i], p);
    assert s[..i + 2] == s[..i] + p;
    assert p[2..] == [] && Pairs([]) == [];
    assert Pairs(p) == [SumDiff(p[0], p[1]).0, SumDiff(p[0], p[1]).1];
    assert y[..i + 2] == x[..i] + Pairs(p);
    assert y[i + 2..] == x[i..][2..] == s[i..][2..];
  }

  lemma {:induction false} WholeBelow(log2: nat, k: nat)
    requires k <= log2
    ensures Whole(Pow2(log2), Pow2(k))
    decreases log2
  {
    if k == log2 {
      WholeSelf(Pow2(log2));
    } else {
      WholeBelow(log2 - 1, k);
      WholeSum(Pow2(log2 - 1), Pow2(log2 - 1), Pow2(k));
    }
  }

  /** The inverse transform, in place, up to the factor 2^log2. */
  method NttDit4CoreInv(a: array<Residue>, log2: nat)
    requires log2 < ORDER && a.Length == Pow2(log2)
    modifies a
    ensures Whole(a.Length, Pow2(log2))
    ensures a[..] == Dit(old(a[..]), log2)
  {
    hide Dit, Dif, Stage, RootAt, ModMul, NegativeRoot, Pairs, Whole, Pow2;
    ghost var s0 := a[..];
    WholeBelow(log2, log2 % 2);
    WholeSelf(Pow2(log2));
    LowLevel(s0, log2 % 2);
    if log2 % 2 == 1 {
      PairLoop(a);
    }
    var act := 2 + log2 % 2;
    while act <= log2
      invariant 2 <= act <= log2 + 2 && act % 2 == log2 % 2
      invariant Whole(a.Length, Pow2(act - 2)) && a[..] == Dit(s0, act - 2)
    {
      var m := Pow2(act - 2);
      var dRoot := NegativeRoot(act);
      var root, root2, root3 := 1, 1, 1;
      ghost var s := a[..];
      WholeBelow(log2, act);
      DitLevel(s0, act);
      StageNone(false, s, dRoot, m);
      RootStart(dRoot);
      var j := 0;
      while j < m
        invariant j <= m && a.Length == |s| && a[..] == Stage(false, s, dRoot, m, j)
        invariant root == RootAt(dRoot, j) && root2 == ModMul(root, root) && root3 == ModMul(root2, root)
      {
        DitRows(a, m, j, root, root2, root3, s, dRoot);
        RootNext(dRoot, j);
        ModMulCommutes(root, dRoot);
        root := ModMul(dRoot, root);
        root2 := ModMul(root, root);
        root3 := ModMul(root2, root);
        j := j + 1;
      }
      act := act + 2;
    }
  }

  /** Scale every entry. */
  method MultiplyVal(a: array<Residue>, length: nat, multiplier: Residue)
    requires length <= a.Length
    modifies a
    ensures forall i :: 0 <= i < length ==> a[i] == ModMul(old(a[i]), multiplier)
    ensures forall i :: length <= i < a.Length ==> a[i] == old(a[i])
  {
    hide ModMul;
    var i := 0;
    while i < length
      invariant i <= length
      invariant forall k :: 0 <= k < i ==> a[k] == ModMul(old(a[k]), multiplier)
      invariant forall k :: i <= k < a.Length ==> a[k] == old(a[k])
    {
      a[i] := ModMul(a[i], multiplier);
      i := i + 1;
    }
  }

  /** The cyclic convolution modulo P of both inputs, left in the first array. */
  method NttConvolution(a1: array<Residue>, a2: array<Residue>, log2: nat)
    requires log2 < ORDER && a1 != a2 && a1.Length == a2.Length == Pow2(log2)
    requires forall i :: 0 <= i < a1.Length ==> a1[i] < P && a2[i] < P
    modifies a1, a2
    ensures a1[..] == ConvolutionModP(old(a1[..]), old(a2[..]))
  {
    hide Dif, Dit, ModMul, ConvolutionModP, Pow2, Whole, InverseOfPower2;
    ghost var s1, s2 := a1[..], a2[..];
    NttDif4Core(a1, log2);
    NttDif4Core(a2, log2);
    ghost var d1, d2 := a1[..], a2[..];
    var length := a1.Length;
    var i := 0;
    while i < length
      invariant i <= length
      invariant a2[..] == d2
      invariant forall k :: 0 <= k < i ==> a1[k] == ModMul(d1[k], d2[k])
      invariant forall k :: i <= k < length ==> a1[k] == d1[k]
    {
      a1[i] := ModMul(a1[i], a2[i]);
      i := i + 1;
    }
    assert a1[..] == Products(d1, d2);
    NttDit4CoreInv(a1, log2);
    ghost var x := a1[..];
    MultiplyVal(a1, length, InverseOfPower2(log2));
    forall t | 0 <= t < length
      ensures a1[t] == ConvolutionModP(s1, s2)[t]
    {
      ConvolutionByTransforms(s1, s2, log2, t);
    }
  }
}
