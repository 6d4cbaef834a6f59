/** Arithmetic modulo P on 32-bit words, as the number theoretic transform performs it. */
module Residues {
  import opened Words

  const P: int := 2013265921   // 15 * 2^27 + 1

  /** What an array entry may hold between two stages: a residue, or P as a second zero. */
  type Residue = x: int | 0 <= x <= P

  ghost predicate Cong(x: int, y: int) {
    (x - y) % P == 0
  }

  lemma CongAdd(x: int, x': int, y: int, y': int)
    requires Cong(x, x') && Cong(y, y')
    ensures Cong(x + y, x' + y') && Cong(x - y, x' - y')
  {}

  lemma CongMul(x: int, x': int, y: int, y': int)
    requires Cong(x, x') && Cong(y, y')
    ensures Cong(x * y, x' * y')
  {
    var k, l := (x - x') / P, (y - y') / P;
    assert x == x' + k * P && y == y' + l * P;
    assert x * y - x' * y' == (k * y + x' * l) * P;
  }

  lemma CongTrans(x: int, y: int, z: int)
    requires Cong(x, y) && Cong(y, z)
    ensures Cong(x, z)
  {}

  lemma CongSym(x: int, y: int)
    requires Cong(x, y)
    ensures Cong(y, x)
  {}

  lemma CongRefl(x: int)
    ensures Cong(x, x)
  {}

  lemma CongRemainder(x: int)
    ensures Cong(x % P, x)
  {}

  function ModAdd(a: Residue, b: Residue): (c: Residue)
    ensures Cong(c, a + b)
  {
    var s: Word32 := a + b;
    if s >= P then s - P else s
  }

  function ModSub(a: Residue, b: Residue): (c: Residue)
    ensures Cong(c, a - b)
  {
    if a >= b then a - b
    else
      var t: Word32 := P - b;
      var u: Word32 := t + a;
      u
  }

  function ModMul(a: Residue, b: Residue): (c: Residue) {
    if a == 0 then 0
    else if a == 1 then b
    else if b == 1 then a
    else (a * b) % P
  }

  lemma ModMulCong(a: Residue, b: Residue)
    ensures Cong(ModMul(a, b), (a as int) * b)
  {
    CongRemainder((a as int) * b);
    if a == 0 || a == 1 || b == 1 { CongRefl((a as int) * b); }
  }
}
