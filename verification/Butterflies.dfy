module Butterflies {
  import opened Residues
  import opened Polynomials
  import opened RootTables

  /** The four results of one radix-4 decimation-in-frequency butterfly, in array order. */
  function DifButterfly(a0: Residue, a1: Residue, a2: Residue, a3: Residue, r: Residue)
    : (o: (Residue, Residue, Residue, Residue))
  {
    var r2 := ModMul(r, r);
    var r3 := ModMul(r, r2);
    var t02, t13 := ModAdd(a0, a2), ModAdd(a1, a3);
    var u02, u13 := ModSub(a0, a2), ModMul(ModSub(a1, a3), Root(2));
    (ModAdd(t02, t13), ModMul(ModSub(t02, t13), r2), ModMul(ModAdd(u02, u13), r), ModMul(ModSub(u02, u13), r3))
  }

  /** The four results of one inverse decimation-in-time butterfly, in array order. */
  function DitButterfly(b0: Residue, b1: Residue, b2: Residue, b3: Residue, r: Residue)
    : (o: (Residue, Residue, Residue, Residue))
  {
    var r2 := ModMul(r, r);
    var r3 := ModMul(r2, r);
    var a2, a1, a3 := ModMul(b1, r2), ModMul(b2, r), ModMul(b3, r3);
    var t02, t13 := ModAdd(b0, a2), ModAdd(a1, a3);
    var u02, u13 := ModSub(b0, a2), ModMul(ModSub(a1, a3), NegativeRoot(2));
    (ModAdd(t02, t13), ModAdd(u02, u13), ModSub(t02, t13), ModSub(u02, u13))
  }

  lemma MulCong(x: Residue, x': int, y: Residue, y': int)
    requires Cong(x, x') && Cong(y, y')
    ensures Cong(ModMul(x, y), x' * y')
  {
    hide *;
    ModMulCong(x, y);
    CongMul(x, x', y, y');
    CongTrans(ModMul(x, y), (x as int) * y, x' * y');
  }

  lemma AddCong(x: Residue, x': int, y: Residue, y': int)
    requires Cong(x, x') && Cong(y, y')
    ensures Cong(ModAdd(x, y), x' + y') && Cong(ModSub(x, y), x' - y')
  {
    hide *;
    CongAdd(x, x', y, y');
    CongTrans(ModAdd(x, y), x as int + y, x' + y');
    CongTrans(ModSub(x, y), x as int - y, x' - y');
  }

  lemma RootPowers(r: Residue, ri: int)
    requires Cong(r, ri)
    ensures Cong(ModMul(r, r), ri * ri)
    ensures Cong(ModMul(r, ModMul(r, r)), ri * (ri * ri))
    ensures Cong(ModMul(ModMul(r, r), r), ri * (ri * ri))
  {
    MulCong(r, ri, r, ri);
    MulCong(r, ri, ModMul(r, r), ri * ri);
    MulCong(ModMul(r, r), ri * ri, r, ri);
    assert (ri * ri) * ri == ri * (ri * ri);
  }

  /** What four butterfly results mean modulo P; scale is 1 for a single forward stage. */
  ghost predicate Mixed(o: (int, int, int, int), a0: int, a1: int, a2: int, a3: int, r: int, scale: int) {
    var i: int := Root(2);
    && Cong(o.0, scale * (a0 + a1 + a2 + a3))
    && Cong(o.1, scale * ((a0 - a1 + a2 - a3) * (r * r)))
    && Cong(o.2, scale * (((a0 - a2) + (a1 - a3) * i) * r))
    && Cong(o.3, scale * (((a0 - a2) - (a1 - a3) * i) * (r * (r * r))))
  }

  lemma DifButterflyCong(a0: Residue, a1: Residue, a2: Residue, a3: Residue, r: Residue, ri: int)
    requires Cong(r, ri)
    ensures Mixed(DifButterfly(a0, a1, a2, a3, r), a0, a1, a2, a3, ri, 1)
  {
    var i: int := Root(2);
    var r2 := ModMul(r, r);
    var r3 := ModMul(r, r2);
    RootPowers(r, ri);
    var x0: int, x1: int, x2: int, x3: int := a0, a1, a2, a3;
    AddCong(a0, x0, a2, x2);
    AddCong(a1, x1, a3, x3);
    AddCong(ModAdd(a0, a2), x0 + x2, ModAdd(a1, a3), x1 + x3);
    MulCong(ModSub(a1, a3), x1 - x3, Root(2), i);
    var h := (x1 - x3) * i;
    var u := ModMul(ModSub(a1, a3), Root(2));
    AddCong(ModSub(a0, a2), x0 - x2, u, h);
    MulCong(ModSub(ModAdd(a0, a2), ModAdd(a1, a3)), (x0 + x2) - (x1 + x3), r2, ri * ri);
    MulCong(ModAdd(ModSub(a0, a2), u), (x0 - x2) + h, r, ri);
    MulCong(ModSub(ModSub(a0, a2), u), (x0 - x2) - h, r3, ri * (ri * ri));
    assert (x0 + x2) - (x1 + x3) == x0 - x1 + x2 - x3;
  }

  lemma Cancel(scale: int, x: int, q: int, v: int)
    requires Cong(q * v, 1)
    ensures Cong((scale * (x * q)) * v, scale * x)
  {
    CongMul(q * v, 1, scale * x, scale * x);
    assert (scale * (x * q)) * v == (q * v) * (scale * x) by {
      calc {
        (scale * (x * q)) * v;
        { assert scale * (x * q) == (scale * x) * q; }
        ((scale * x) * q) * v;
        (scale * x) * (q * v);
      }
    }
  }

  lemma UnitPowers(r: int, u: int)
    requires Cong(r * u, 1)
    ensures Cong((r * r) * (u * u), 1)
    ensures Cong((r * (r * r)) * (u * (u * u)), 1)
  {
    CongMul(r * u, 1, r * u, 1);
    MulInterchange(r, u, r, u);
    MulInterchange(r, r, u, u);
    CongMul(r * u, 1, (r * r) * (u * u), 1);
    MulInterchange(r, r * r, u, u * u);
  }

  lemma Untwist(b: Residue, u: Residue, ui: int, scale: int, x: int, q: int)
    requires Cong(u, ui) && Cong(q * ui, 1)
    requires Cong(b, scale * (x * q))
    ensures Cong(ModMul(b, u), scale * x)
  {
    MulCong(b, scale * (x * q), u, ui);
    Cancel(scale, x, q, ui);
    CongTrans(ModMul(b, u), (scale * (x * q)) * ui, scale * x);
  }

  ghost predicate Unmixed(o: (int, int, int, int), a0: int, a1: int, a2: int, a3: int, scale: int) {
    && Cong(o.0, (4 * scale) * a0)
    && Cong(o.1, (4 * scale) * a1)
    && Cong(o.2, (4 * scale) * a2)
    && Cong(o.3, (4 * scale) * a3)
  }

  /** The inverse butterfly undoes the forward one, up to a factor of four. */
  lemma DitButterflyCong(b0: Residue, b1: Residue, b2: Residue, b3: Residue, u: Residue, ui: int, ri: int,
                         scale: int, a0: int, a1: int, a2: int, a3: int)
    requires Cong(u, ui) && Cong(ri * ui, 1)
    requires Mixed((b0, b1, b2, b3), a0, a1, a2, a3, ri, scale)
    ensures Unmixed(DitButterfly(b0, b1, b2, b3, u), a0, a1, a2, a3, scale)
  {
    var i: int := Root(2);
    var d, h := a0 - a2, (a1 - a3) * i;
    RootPowers(u, ui);
    UnitPowers(ri, ui);
    var u2 := ModMul(u, u);
    var c2, c1, c3 := ModMul(b1, u2), ModMul(b2, u), ModMul(b3, ModMul(u2, u));
    Untwist(b1, u2, ui * ui, scale, a0 - a1 + a2 - a3, ri * ri);
    Untwist(b2, u, ui, scale, d + h, ri);
    Untwist(b3, ModMul(u2, u), ui * (ui * ui), scale, d - h, ri * (ri * ri));
    Halves(scale, a1 - a3, d, h);
    Unmix(b0, c1, c2, c3, scale * (a0 + a1 + a2 + a3), scale * (a0 - a1 + a2 - a3), scale * (d + h), scale * (d - h),
          (2 * scale) * (a1 - a3));
    Collect(scale, a0, a1, a2, a3, h);
  }

  lemma Halves(scale: int, x: int, d: int, h: int)
    requires h == x * Root(2)
    ensures Cong((scale * (d + h) - scale * (d - h)) * NegativeRoot(2), (2 * scale) * x)
  {
    RootInverse(2);
    Cancel(2 * scale, x, Root(2), NegativeRoot(2));
    assert scale * (d + h) - scale * (d - h) == (2 * scale) * h;
  }

  lemma Unmix(b0: Residue, c1: Residue, c2: Residue, c3: Residue, x0: int, x1: int, y2: int, y3: int, e: int)
    requires Cong(b0, x0) && Cong(c2, x1) && Cong(c1, y2) && Cong(c3, y3)
    requires Cong((y2 - y3) * NegativeRoot(2), e)
    ensures var t02, t13 := ModAdd(b0, c2), ModAdd(c1, c3);
      var u02, u13 := ModSub(b0, c2), ModMul(ModSub(c1, c3), NegativeRoot(2));
      && Cong(ModAdd(t02, t13), (x0 + x1) + (y2 + y3)) && Cong(ModSub(t02, t13), (x0 + x1) - (y2 + y3))
      && Cong(ModAdd(u02, u13), (x0 - x1) + e) && Cong(ModSub(u02, u13), (x0 - x1) - e)
  {
    AddCong(b0, x0, c2, x1);
    AddCong(c1, y2, c3, y3);
    MulCong(ModSub(c1, c3), y2 - y3, NegativeRoot(2), NegativeRoot(2));
    var u13 := ModMul(ModSub(c1, c3), NegativeRoot(2));
    CongTrans(u13, (y2 - y3) * NegativeRoot(2), e);
    AddCong(ModAdd(b0, c2), x0 + x1, ModAdd(c1, c3), y2 + y3);
    AddCong(ModSub(b0, c2), x0 - x1, u13, e);
  }

  lemma Collect(scale: int, a0: int, a1: int, a2: int, a3: int, h: int)
    ensures var d := a0 - a2;
      var x0, x1, y2, y3 := a0 + a1 + a2 + a3, a0 - a1 + a2 - a3, d + h, d - h;
      var e := (2 * scale) * (a1 - a3);
      && (scale * x0 + scale * x1) + (scale * y2 + scale * y3) == (4 * scale) * a0
      && (scale * x0 + scale * x1) - (scale * y2 + scale * y3) == (4 * scale) * a2
      && (scale * x0 - scale * x1) + e == (4 * scale) * a1
      && (scale * x0 - scale * x1) - e == (4 * scale) * a3
  {}
}
