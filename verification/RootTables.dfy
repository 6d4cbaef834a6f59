module RootTables {
  import opened Residues
  import opened PowersOfTwo
  import opened Polynomials

  const ORDER: nat := 28

  /** A 2^k-th root of unity. */
  function Root(k: nat): (r: Residue)
    requires k < ORDER
  {
    match k
    case 0 => 1    case 1 => 2013265920
    case 2 => 284861408    case 3 => 1801542727
    case 4 => 567209306    case 5 => 740045640
    case 6 => 918899846    case 7 => 1881002012
    case 8 => 1453957774    case 9 => 65325759
    case 10 => 1538055801    case 11 => 515192888
    case 12 => 483885487    case 13 => 157393079
    case 14 => 1695124103    case 15 => 2005211659
    case 16 => 1540072241    case 17 => 88064245
    case 18 => 1542985445    case 19 => 1269900459
    case 20 => 1461624142    case 21 => 825701067
    case 22 => 682402162    case 23 => 1311873874
    case 24 => 1164520853    case 25 => 352275361
    case 26 => 18769    case _ => 137
  }

  /** The inverse of Root(k): a 2^(-k)-th root of unity. */
  function NegativeRoot(k: nat): (r: Residue)
    requires k < ORDER
  {
    match k
    case 0 => 1    case 1 => 2013265920
    case 2 => 1728404513    case 3 => 1592366214
    case 4 => 196396260    case 5 => 1253260071
    case 6 => 72041623    case 7 => 1091445674
    case 8 => 145223211    case 9 => 1446820157
    case 10 => 1030796471    case 11 => 2010749425
    case 12 => 1827366325    case 13 => 1239938613
    case 14 => 246299276    case 15 => 596347512
    case 16 => 1893145354    case 17 => 246074437
    case 18 => 1525739923    case 19 => 1194341128
    case 20 => 1463599021    case 21 => 704606912
    case 22 => 95395244    case 23 => 15672543
    case 24 => 647517488    case 25 => 584175179
    case 26 => 137728885    case _ => 749463956
  }

  /** 2^(-k) */
  function InverseOfPower2(k: nat): (r: Residue)
    requires k < ORDER
  {
    match k
    case 0 => 1    case 1 => 1006632961
    case 2 => 1509949441    case 3 => 1761607681
    case 4 => 1887436801    case 5 => 1950351361
    case 6 => 1981808641    case 7 => 1997537281
    case 8 => 2005401601    case 9 => 2009333761
    case 10 => 2011299841    case 11 => 2012282881
    case 12 => 2012774401    case 13 => 2013020161
    case 14 => 2013143041    case 15 => 2013204481
    case 16 => 2013235201    case 17 => 2013250561
    case 18 => 2013258241    case 19 => 2013262081
    case 20 => 2013264001    case 21 => 2013264961
    case 22 => 2013265441    case 23 => 2013265681
    case 24 => 2013265801    case 25 => 2013265861
    case 26 => 2013265891    case _ => 2013265906
  }

  lemma RootSquare(k: nat)
    requires 1 <= k < ORDER
    ensures Cong(Root(k) as int * Root(k), Root(k - 1))
  {  }

  lemma RootInverse(k: nat)
    requires k < ORDER
    ensures Cong(Root(k) as int * NegativeRoot(k), 1)
  {  }

  lemma HalfStep(k: nat)
    requires 1 <= k < ORDER
    ensures Cong(2 * (InverseOfPower2(k) as int), InverseOfPower2(k - 1))
  {  }

  lemma InverseStep(q: int, a: int, b: int)
    requires Cong(2 * a, b) && Cong(q * b, 1)
    ensures Cong((2 * q) * a, 1)
  {
    hide *;
    CongRefl(q);
    CongMul(q, q, 2 * a, b);
    CongTrans(q * (2 * a), q * b, 1);
    assert (2 * q) * a == q * (2 * a);
  }

  /** InverseOfPower2 is what its name says. */
  lemma {:induction false} InversePower(k: nat)
    requires k < ORDER
    ensures Cong(Pow2(k) * (InverseOfPower2(k) as int), 1)
  {
    hide InverseOfPower2, Cong;
    if k > 0 {
      InversePower(k - 1);
      HalfStep(k);
      InverseStep(Pow2(k - 1), InverseOfPower2(k), InverseOfPower2(k - 1));
      assert Pow2(k) == 2 * Pow2(k - 1);
    } else {
      InverseOfOne();
    }
  }

  lemma InverseOfOne()
    ensures Cong(Pow2(0) * (InverseOfPower2(0) as int), 1)
  {}

  lemma QuarterStep(w: int, v: int, n: nat)
    requires Cong(w * w, v)
    ensures Cong(Pow(w, 2 * n), Pow(v, n))
  {
    PowSquare(w, n);
    PowCong(w * w, v, n);
  }

  /** The root of level k, raised to a quarter of its order, is the root of level 2. */
  lemma {:induction false} QuarterPower(k: nat)
    requires 2 <= k < ORDER
    ensures Cong(Pow(Root(k), Pow2(k - 2)), Root(2))
  {
    if k > 2 {
      QuarterPower(k - 1);
      RootSquare(k);
      QuarterStep(Root(k), Root(k - 1), Pow2(k - 3));
    } else {
      assert Pow(Root(2), 1) == Root(2) * Pow(Root(2), 0);
    }
  }
}
