module Transforms {
  import opened Words
  import opened Residues
  import opened PowersOfTwo
  import opened Polynomials
  import opened RootTables
  import opened Butterflies

  /** n is a whole number of blocks of length m. */
  ghost predicate Whole(n: nat, m: nat)
    requires m > 0
  {
    n == 0 || (n >= m && Whole(n - m, m))
  }

  lemma {:induction false} WholeSum(a: nat, b: nat, m: nat)
    requires m > 0 && Whole(a, m) && Whole(b, m)
    ensures Whole(a + b, m)
  {
    if a > 0 { WholeSum(a - m, b, m); }
  }

  lemma {:induction false} WholeQuarter(n: nat, m: nat)
    requires m > 0 && Whole(n, 4 * m)
    ensures Whole(n, m)
  {
    if n > 0 {
      WholeQuarter(n - 4 * m, m);
      assert Whole(n - 3 * m, m) && Whole(n - 2 * m, m);
    }
  }

  lemma WholeLevel(n: nat, log2: nat)
    requires log2 >= 2 && Whole(n, Pow2(log2))
    ensures Pow2(log2) == 4 * Pow2(log2 - 2)
    ensures Whole(n, 4 * Pow2(log2 - 2)) && Whole(n, Pow2(log2 - 2))
  {
    assert Pow2(log2) == 2 * Pow2(log2 - 1) == 4 * Pow2(log2 - 2);
    WholeQuarter(n, Pow2(log2 - 2));
  }

  /** The k-th power of w, as the loops accumulate it. */
  function RootAt(w: Residue, k: nat): (r: Residue) {
    if k == 0 then 1 else ModMul(RootAt(w, k - 1), w)
  }

  lemma {:induction false} RootAtCong(w: Residue, k: nat)
    ensures Cong(RootAt(w, k), Pow(w, k))
  {
    if k > 0 {
      RootAtCong(w, k - 1);
      MulCong(RootAt(w, k - 1), Pow(w, k - 1), w, w);
    }
  }

  function Column(i: nat, m: nat): nat
    requires i < 4 * m
    ensures Column(i, m) < m
  {
    if i < m then i else if i < 2 * m then i - m else if i < 3 * m then i - 2 * m else i - 3 * m
  }

  function Pick<T>(q: (T, T, T, T), i: nat, m: nat): T {
    if i < m then q.0 else if i < 2 * m then q.1 else if i < 3 * m then q.2 else q.3
  }

  function DifColumn(s: seq<Residue>, w: Residue, m: nat, c: nat): (o: (Residue, Residue, Residue, Residue))
    requires |s| == 4 * m && c < m
  {
    DifButterfly(s[c], s[c + m], s[c + 2 * m], s[c + 3 * m], RootAt(w, c))
  }

  function DitColumn(s: seq<Residue>, w: Residue, m: nat, c: nat): (o: (Residue, Residue, Residue, Residue))
    requires |s| == 4 * m && c < m
  {
    DitButterfly(s[c], s[c + m], s[c + 2 * m], s[c + 3 * m], RootAt(w, c))
  }

  /** A block of length 4m with the butterflies of its first j columns carried out. */
  function Block(forward: bool, s: seq<Residue>, w: Residue, m: nat, j: nat): (t: seq<Residue>)
    requires |s| == 4 * m && j <= m
    ensures |t| == |s|
  {
    seq(4 * m, i requires 0 <= i < 4 * m =>
      if Column(i, m) < j
      then Pick(if forward then DifColumn(s, w, m, Column(i, m)) else DitColumn(s, w, m, Column(i, m)), i, m)
      else s[i])
  }

  /** Block, for every block of s. */
  function Stage(forward: bool, s: seq<Residue>, w: Residue, m: nat, j: nat): (t: seq<Residue>)
    requires m > 0 && Whole(|s|, 4 * m) && j <= m
    ensures |t| == |s|
  {
    if s == [] then []
    else Block(forward, s[..4 * m], w, m, j) + Stage(forward, s[4 * m..], w, m, j)
  }

  lemma StageEmpty(forward: bool, w: Residue, m: nat, j: nat)
    requires m > 0 && j <= m
    ensures Whole(0, 4 * m) && Stage(forward, [], w, m, j) == []
  {}

  lemma StageHead(forward: bool, s: seq<Residue>, w: Residue, m: nat, j: nat)
    requires m > 0 && |s| > 0 && Whole(|s|, 4 * m) && j <= m
    ensures |s| >= 4 * m
    ensures Stage(forward, s, w, m, j) == Block(forward, s[..4 * m], w, m, j) + Stage(forward, s[4 * m..], w, m, j)
  {
    hide Block;
  }

  lemma {:induction false} StageAppend(forward: bool, s: seq<Residue>, t: seq<Residue>, w: Residue, m: nat, j: nat)
    requires m > 0 && Whole(|s|, 4 * m) && Whole(|t|, 4 * m) && j <= m
    ensures Whole(|s + t|, 4 * m)
    ensures Stage(forward, s + t, w, m, j) == Stage(forward, s, w, m, j) + Stage(forward, t, w, m, j)
  {
    hide Block, Stage;
    WholeSum(|s|, |t|, 4 * m);
    if s == [] {
      assert s + t == t && s == [];
      StageEmpty(forward, w, m, j);
    } else {
      StageAppend(forward, s[4 * m..], t, w, m, j);
      assert (s + t)[..4 * m] == s[..4 * m];
      assert (s + t)[4 * m..] == s[4 * m..] + t;
      StageHead(forward, s, w, m, j);
      StageHead(forward, s + t, w, m, j);
    }
  }

  lemma {:induction false} StageNone(forward: bool, s: seq<Residue>, w: Residue, m: nat)
    requires m > 0 && Whole(|s|, 4 * m)
    ensures Stage(forward, s, w, m, 0) == s
  {
    if s != [] {
      StageNone(forward, s[4 * m..], w, m);
      assert Block(forward, s[..4 * m], w, m, 0) == s[..4 * m];
    }
  }

  /** The radix-2 step on every pair; the sum is reduced only when it exceeds P. */
  function SumDiff(a: Residue, b: Residue): (o: (Residue, Residue)) {
    var sum: Word32 := a + b;
    (if sum > P then sum - P else sum, ModSub(a, b))
  }

  function Pairs(s: seq<Residue>): (t: seq<Residue>)
    requires Whole(|s|, 2)
    ensures |t| == |s|
  {
    if s == [] then [] else [SumDiff(s[0], s[1]).0, SumDiff(s[0], s[1]).1] + Pairs(s[2..])
  }

  lemma {:induction false} PairsAppend(s: seq<Residue>, t: seq<Residue>)
    requires Whole(|s|, 2) && Whole(|t|, 2)
    ensures Whole(|s + t|, 2) && Pairs(s + t) == Pairs(s) + Pairs(t)
  {
    WholeSum(|s|, |t|, 2);
    if s == [] {
      assert s + t == t;
    } else {
      PairsAppend(s[2..], t);
      PairsHead(s, t);
    }
  }

  lemma PairsHead(s: seq<Residue>, t: seq<Residue>)
    requires Whole(|s|, 2) && Whole(|s + t|, 2) && s != []
    ensures |s| >= 2 && Whole(|s[2..]|, 2) && Whole(|s[2..] + t|, 2)
    ensures var h := [SumDiff(s[0], s[1]).0, SumDiff(s[0], s[1]).1];
      Pairs(s + t) == h + Pairs(s[2..] + t) && Pairs(s) == h + Pairs(s[2..])
  {
    hide SumDiff;
    assert (s + t)[2..] == s[2..] + t;
  }

  /** All forward stages, on every block of length 2^log2. */
  function Dif(s: seq<Residue>, log2: nat): (t: seq<Residue>)
    requires log2 < ORDER && Whole(|s|, Pow2(log2))
    ensures |t| == |s|
    decreases log2
  {
    if log2 >= 2 then
      var m := Pow2(log2 - 2);
      WholeLevel(|s|, log2);
      Dif(Stage(true, s, Root(log2), m, m), log2 - 2)
    else if log2 == 1 then Pairs(s)
    else s
  }

  /** All inverse stages, on every block of length 2^log2. */
  function Dit(s: seq<Residue>, log2: nat): (t: seq<Residue>)
    requires log2 < ORDER && Whole(|s|, Pow2(log2))
    ensures |t| == |s|
    decreases log2
  {
    if log2 >= 2 then
      var m := Pow2(log2 - 2);
      WholeLevel(|s|, log2);
      Stage(false, Dit(s, log2 - 2), NegativeRoot(log2), m, m)
    else if log2 == 1 then Pairs(s)
    else s
  }

  lemma DifLevel(s: seq<Residue>, log2: nat)
    requires 2 <= log2 < ORDER && Whole(|s|, Pow2(log2))
    ensures var m := Pow2(log2 - 2);
      && Whole(|s|, 4 * m) && Whole(|s|, m)
      && Dif(s, log2) == Dif(Stage(true, s, Root(log2), m, m), log2 - 2)
  {
    hide Stage, Root;
    WholeLevel(|s|, log2);
  }

  lemma DitLevel(s: seq<Residue>, log2: nat)
    requires 2 <= log2 < ORDER && Whole(|s|, Pow2(log2))
    ensures var m := Pow2(log2 - 2);
      && Whole(|s|, 4 * m) && Whole(|s|, m)
      && Dit(s, log2) == Stage(false, Dit(s, log2 - 2), NegativeRoot(log2), m, m)
  {
    hide Stage, NegativeRoot;
    WholeLevel(|s|, log2);
  }

  lemma LowLevel(s: seq<Residue>, log2: nat)
    requires log2 < 2 && Whole(|s|, Pow2(log2))
    ensures Pow2(log2) == log2 + 1
    ensures Dif(s, log2) == Dit(s, log2)
    ensures Dif(s, log2) == if log2 == 1 then Pairs(s) else s
  {
    assert Pow2(1) == 2 * Pow2(0) == 2;
  }

  lemma {:induction false} DifAppend(s: seq<Residue>, t: seq<Residue>, log2: nat)
    requires log2 < ORDER && Whole(|s|, Pow2(log2)) && Whole(|t|, Pow2(log2))
    ensures Whole(|s + t|, Pow2(log2))
    ensures Dif(s + t, log2) == Dif(s, log2) + Dif(t, log2)
    decreases log2
  {
    hide Dif, Stage, Pow2, Whole, Root, Pairs;
    WholeSum(|s|, |t|, Pow2(log2));
    if log2 >= 2 {
      var m, w := Pow2(log2 - 2), Root(log2);
      DifLevel(s, log2);
      DifLevel(t, log2);
      DifLevel(s + t, log2);
      StageAppend(true, s, t, w, m, m);
      DifAppend(Stage(true, s, w, m, m), Stage(true, t, w, m, m), log2 - 2);
    } else {
      LowLevel(s, log2);
      LowLevel(t, log2);
      LowLevel(s + t, log2);
      if log2 == 1 { PairsAppend(s, t); }
    }
  }

  lemma {:induction false} DitAppend(s: seq<Residue>, t: seq<Residue>, log2: nat)
    requires log2 < ORDER && Whole(|s|, Pow2(log2)) && Whole(|t|, Pow2(log2))
    ensures Whole(|s + t|, Pow2(log2))
    ensures Dit(s + t, log2) == Dit(s, log2) + Dit(t, log2)
    decreases log2
  {
    hide Dit, Dif, Stage, Pow2, Whole, NegativeRoot, Pairs;
    WholeSum(|s|, |t|, Pow2(log2));
    if log2 >= 2 {
      var m, w := Pow2(log2 - 2), NegativeRoot(log2);
      DitLevel(s, log2);
      DitLevel(t, log2);
      DitLevel(s + t, log2);
      DitAppend(s, t, log2 - 2);
      StageAppend(false, Dit(s, log2 - 2), Dit(t, log2 - 2), w, m, m);
    } else {
      LowLevel(s, log2);
      LowLevel(t, log2);
      LowLevel(s + t, log2);
      if log2 == 1 { PairsAppend(s, t); }
    }
  }

  /** The points at which Dif evaluates its input, in output order. */
  ghost function Points(log2: nat): (z: seq<int>)
    requires log2 < ORDER
    ensures |z| == Pow2(log2)
    decreases log2
  {
    if log2 >= 2 then
      var w: int := Root(log2);
      var y := Points(log2 - 2);
      assert Pow2(log2) == 2 * Pow2(log2 - 1) == 4 * Pow2(log2 - 2);
      Scaled(1, y) + Scaled(w * w, y) + Scaled(w, y) + Scaled(w * (w * w), y)
    else if log2 == 1 then [1, -1]
    else [1]
  }

  ghost function Scaled(v: int, y: seq<int>): (z: seq<int>)
    ensures |z| == |y|
  {
    seq(|y|, t requires 0 <= t < |y| => v * y[t])
  }

  ghost function Folded(s: seq<int>, m: nat, c: int): (l: seq<int>)
    requires |s| == 4 * m
    ensures |l| == m
  {
    AddScaled(s[..m], c, AddScaled(s[m..2 * m], c, AddScaled(s[2 * m..3 * m], c, s[3 * m..])))
  }

  lemma FoldStep(a: seq<int>, b': seq<int>, b: seq<int>, c: int, z: int)
    requires |a| == |b'| && Cong(Pow(z, |a|), c)
    requires Cong(Eval(b', z), Eval(b, z))
    ensures Cong(Eval(AddScaled(a, c, b'), z), Eval(a + b, z))
  {
    hide *;
    EvalAddScaled(a, c, b', z);
    EvalConcat(a, b, z);
    CongSym(Pow(z, |a|), c);
    CongMul(c, Pow(z, |a|), Eval(b', z), Eval(b, z));
    CongRefl(Eval(a, z));
    CongAdd(Eval(a, z), Eval(a, z), c * Eval(b', z), Pow(z, |a|) * Eval(b, z));
  }

  lemma FoldedEval(s: seq<int>, m: nat, c: int, z: int)
    requires |s| == 4 * m && Cong(Pow(z, m), c)
    ensures Cong(Eval(Folded(s, m, c), z), Eval(s, z))
  {
    hide Eval, Cong, Pow;
    var s0, s1, s2, s3 := s[..m], s[m..2 * m], s[2 * m..3 * m], s[3 * m..];
    CongRefl(Eval(s3, z));
    FoldStep(s2, s3, s3, c, z);
    FoldStep(s1, AddScaled(s2, c, s3), s2 + s3, c, z);
    FoldStep(s0, AddScaled(s1, c, AddScaled(s2, c, s3)), s1 + (s2 + s3), c, z);
    assert s == s0 + (s1 + (s2 + s3));
  }

  /** One output quarter of a stage: evaluating it at y evaluates the whole block at v*y. */
  lemma FoldEval(s: seq<int>, out: seq<int>, m: nat, v: int, c: int, y: int)
    requires |s| == 4 * m && |out| == m
    requires Cong(Pow(v, m), c) && Cong(Pow(y, m), 1)
    requires CongSeq(out, Twist(Folded(s, m, c), v, 0))
    ensures Cong(Eval(out, y), Eval(s, v * y))
  {
    var l := Folded(s, m, c);
    EvalCong(out, Twist(l, v, 0), y);
    EvalTwist(l, v, 0, y);
    PowOfProduct(v, y, m);
    CongMul(Pow(v, m), c, Pow(y, m), 1);
    FoldedEval(s, m, c, v * y);
    CongTrans(Eval(out, y), Eval(l, v * y), Eval(s, v * y));
  }
}
