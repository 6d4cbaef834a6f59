/** What the evaluation hash computes: a polynomial in the key, over the blocks of the message. */
module HashSpecification {
  import opened Words
  import opened PowersOfTwo
  import opened BinaryPolynomials
  import opened BinaryField
  import opened Blobs
  import opened GaloisField2
  import opened FastMultiplication

  /** The big-endian number that bytes stand for. */
  function BytesValue(s: seq<Byte>): nat {
    if s == [] then 0 else BytesValue(s[..|s| - 1]) * 256 + s[|s| - 1]
  }

  /** Four bytes in network order as one word. */
  function WordOf(b0: Byte, b1: Byte, b2: Byte, b3: Byte): Word32 {
    (b0 as int) * 0x100_0000 + (b1 as int) * 0x1_0000 + (b2 as int) * 0x100 + b3
  }

  /** A field and a key in it. */
  datatype Setting = Setting(f: Field, words: nat, a: nat) {
    ghost predicate Valid() {
      f.Valid() && words > 0 && f.n == 32 * words && 1 < f.Size() && a < f.Size()
    }

    function BlockSize(): nat {
      4 * words
    }
  }

  datatype HashState = HashState(tag: nat, rest: seq<Byte>, blocks: nat)

  ghost predicate GoodState(p: Setting, st: HashState) {
    p.Valid() && st.tag < p.f.Size() && |st.rest| < p.BlockSize()
  }

  lemma {:induction false} BytesBound(s: seq<Byte>, n: nat)
    requires |s| == 4 * n
    ensures BytesValue(s) < Pow2(32 * n)
    decreases n
  {
    hide Pow2;
    Pow2Words(if n == 0 then 0 else n - 1);
    if n > 0 {
      var m := |s|;
      BytesBound(s[..m - 4], n - 1);
      FourBytes(s);
      WordBound(BytesValue(s[..m - 4]), Pow2(32 * (n - 1)), s[m - 4], s[m - 3], s[m - 2], s[m - 1]);
    }
  }

  lemma WordBound(x: nat, d: nat, b0: Byte, b1: Byte, b2: Byte, b3: Byte)
    requires x < d
    ensures x * WORD_SIZE + WordOf(b0, b1, b2, b3) < d * WORD_SIZE
  {}

  lemma FourBytes(s: seq<Byte>)
    requires |s| >= 4
    ensures var m := |s|;
      BytesValue(s) == BytesValue(s[..m - 4]) * WORD_SIZE
        + WordOf(s[m - 4], s[m - 3], s[m - 2], s[m - 1])
  {
    var m := |s|;
    assert s[..m - 1][..m - 2] == s[..m - 2] && s[..m - 2][..m - 3] == s[..m - 3] && s[..m - 3][..m - 4] == s[..m - 4];
    LastByte(s);
    LastByte(s[..m - 1]);
    LastByte(s[..m - 2]);
    LastByte(s[..m - 3]);
  }

  lemma LastByte(s: seq<Byte>)
    requires s != []
    ensures BytesValue(s) == BytesValue(s[..|s| - 1]) * 256 + s[|s| - 1]
  {}

  /** One block enters the tag: (tag + block) * key. */
  ghost function AbsorbBlock(p: Setting, tag: nat, block: nat): (t: nat)
    requires p.Valid() && tag < p.f.Size() && block < p.f.Size()
    ensures t < p.f.Size()
  {
    XorBound(tag, block, p.f.n);
    Times(p.f, Xor(tag, block), p.a)
  }

  /** The reference: bytes enter one at a time, a block is absorbed as soon as it is full. */
  ghost function FeedByte(p: Setting, st: HashState, b: Byte): (r: HashState)
    requires GoodState(p, st)
    ensures GoodState(p, r)
  {
    var rest := st.rest + [b];
    if |rest| == p.BlockSize() then
      BytesBound(rest, p.words);
      HashState(AbsorbBlock(p, st.tag, BytesValue(rest)), [], st.blocks + 1)
    else st.(rest := rest)
  }

  ghost function Feed(p: Setting, st: HashState, s: seq<Byte>): (r: HashState)
    requires GoodState(p, st)
    ensures GoodState(p, r)
  {
    if s == [] then st else FeedByte(p, Feed(p, st, s[..|s| - 1]), s[|s| - 1])
  }

  /** Input may be split anywhere. */
  lemma {:induction false} FeedConcat(p: Setting, st: HashState, s: seq<Byte>, t: seq<Byte>)
    requires GoodState(p, st)
    ensures Feed(p, st, s + t) == Feed(p, Feed(p, st, s), t)
    decreases |t|
  {
    hide FeedByte;
    if t == [] {
      assert s + t == s;
    } else {
      FeedConcat(p, st, s, t[..|t| - 1]);
      assert (s + t)[..|s + t| - 1] == s + t[..|t| - 1];
    }
  }

  lemma {:induction false} FeedShort(p: Setting, st: HashState, s: seq<Byte>)
    requires GoodState(p, st) && |st.rest| + |s| < p.BlockSize()
    ensures Feed(p, st, s) == st.(rest := st.rest + s)
    decreases |s|
  {
    if s == [] {
      assert st.rest + s == st.rest;
    } else {
      FeedShort(p, st, s[..|s| - 1]);
      assert st.rest + s[..|s| - 1] + [s[|s| - 1]] == st.rest + s;
    }
  }

  lemma FeedBlock(p: Setting, st: HashState, s: seq<Byte>)
    requires GoodState(p, st) && |st.rest| + |s| == p.BlockSize()
    ensures BytesValue(st.rest + s) < p.f.Size()
    ensures Feed(p, st, s) == HashState(AbsorbBlock(p, st.tag, BytesValue(st.rest + s)), [], st.blocks + 1)
  {
    var k := |s| - 1;
    hide Feed, AbsorbBlock, BytesValue;
    FeedShort(p, st, s[..k]);
    FeedLast(p, st, s);
    assert st.rest + s[..k] + [s[k]] == st.rest + s;
    BytesBound(st.rest + s, p.words);
  }

  lemma FeedLast(p: Setting, st: HashState, s: seq<Byte>)
    requires GoodState(p, st) && s != []
    ensures Feed(p, st, s) == FeedByte(p, Feed(p, st, s[..|s| - 1]), s[|s| - 1])
  {}

  function ZeroBytes(n: nat): (s: seq<Byte>)
    ensures |s| == n
  {
    seq(n, _ => 0)
  }

  /** The message as it is hashed in the end: zero-padded to whole blocks. */
  ghost function Finished(p: Setting, st: HashState): (r: HashState)
    requires GoodState(p, st)
    ensures GoodState(p, r) && r.rest == []
  {
    if st.rest == [] then st
    else
      FeedBlock(p, st, ZeroBytes(p.BlockSize() - |st.rest|));
      Feed(p, st, ZeroBytes(p.BlockSize() - |st.rest|))
  }

  /** Finishing is feeding the padded rest as one block. */
  lemma FinishedBlock(p: Setting, st: HashState)
    requires GoodState(p, st)
    ensures st.rest == [] ==> Finished(p, st) == st
    ensures st.rest != [] ==>
      var block := st.rest + ZeroBytes(p.BlockSize() - |st.rest|);
      GoodState(p, st.(rest := [])) && Finished(p, st) == Feed(p, st.(rest := []), block)
  {
    hide Feed, BytesValue, AbsorbBlock;
    if st.rest != [] {
      var padding := ZeroBytes(p.BlockSize() - |st.rest|);
      FeedBlock(p, st, padding);
      FeedBlock(p, st.(rest := []), st.rest + padding);
      assert [] + (st.rest + padding) == st.rest + padding;
    }
  }

  ghost function Initial(): HashState {
    HashState(0, [], 0)
  }

  /** The block values of a message, and what is left over. */
  ghost function BlockValues(n: nat, s: seq<Byte>): (v: seq<nat>)
    requires n > 0
    decreases |s|
  {
    if |s| < n then [] else [BytesValue(s[..n])] + BlockValues(n, s[n..])
  }

  ghost function Remaining(n: nat, s: seq<Byte>): (r: seq<Byte>)
    requires n > 0
    ensures |r| < n
    decreases |s|
  {
    if |s| < n then s else Remaining(n, s[n..])
  }

  ghost predicate GoodBlocks(p: Setting, v: seq<nat>) {
    forall i :: 0 <= i < |v| ==> v[i] < p.f.Size()
  }

  lemma {:induction false} BlockValuesGood(p: Setting, s: seq<Byte>)
    requires p.Valid()
    ensures GoodBlocks(p, BlockValues(p.BlockSize(), s))
    decreases |s|
  {
    var n := p.BlockSize();
    if |s| >= n {
      BytesBound(s[..n], p.words);
      BlockValuesGood(p, s[n..]);
    }
  }

  /** Horner's rule, started at tag. */
  ghost function Horner(p: Setting, tag: nat, v: seq<nat>): (t: nat)
    requires p.Valid() && tag < p.f.Size() && GoodBlocks(p, v)
    ensures t < p.f.Size()
    decreases |v|
  {
    if v == [] then tag else Horner(p, AbsorbBlock(p, tag, v[0]), v[1..])
  }

  /** v[0] * a^m + v[1] * a^(m-1) + ... + v[m-1] * a, for m blocks. */
  ghost function KeyPolynomial(p: Setting, v: seq<nat>): (t: nat)
    requires p.Valid() && GoodBlocks(p, v)
    decreases |v|
  {
    if v == [] then 0 else Xor(Times(p.f, Power(p.f, p.a, |v|), v[0]), KeyPolynomial(p, v[1..]))
  }

  /** Hashing in blocks is Horner's rule over the block values. */
  lemma {:induction false} FeedIsHorner(p: Setting, st: HashState, s: seq<Byte>)
    requires GoodState(p, st) && st.rest == []
    ensures var v := BlockValues(p.BlockSize(), s);
      GoodBlocks(p, v)
      && Feed(p, st, s) == HashState(Horner(p, st.tag, v), Remaining(p.BlockSize(), s), st.blocks + |v|)
    decreases |s|
  {
    var n := p.BlockSize();
    BlockValuesGood(p, s);
    hide AbsorbBlock, BytesValue;
    if |s| < n {
      FeedShort(p, st, s);
      assert [] + s == s;
    } else {
      var b, t := s[..n], s[n..];
      assert s == b + t;
      FeedConcat(p, st, b, t);
      FeedBlock(p, st, b);
      assert [] + b == b;
      FeedIsHorner(p, Feed(p, st, b), t);
      assert BlockValues(n, s) == [BytesValue(b)] + BlockValues(n, t);
    }
  }

  lemma AbsorbSplit(p: Setting, tag: nat, b: nat, k: nat)
    requires p.Valid() && tag < p.f.Size() && b < p.f.Size()
    ensures var f := p.f;
      Times(f, Power(f, p.a, k), AbsorbBlock(p, tag, b)) ==
        Xor(Times(f, Power(f, p.a, k + 1), tag), Times(f, Power(f, p.a, k + 1), b))
  {
    var f, q := p.f, Power(p.f, p.a, k);
    XorBound(tag, b, f.n);
    hide Times, Xor, Power;
    TimesComm(f, Xor(tag, b), p.a);
    TimesAssoc(f, q, p.a, Xor(tag, b));
    PowerSum(f, p.a, k, 1);
    PowerOne(f, p.a);
    TimesLinearRight(f, Power(f, p.a, k + 1), tag, b);
  }

  /** Horner's rule evaluates the key polynomial. */
  lemma {:induction false} HornerIsPolynomial(p: Setting, tag: nat, v: seq<nat>)
    requires p.Valid() && tag < p.f.Size() && GoodBlocks(p, v)
    ensures Horner(p, tag, v) == Xor(Times(p.f, Power(p.f, p.a, |v|), tag), KeyPolynomial(p, v))
    decreases |v|
  {
    hide Times, Xor, AbsorbBlock;
    if v == [] {
      PowerStart(p.f, p.a, tag);
      XorZero(tag);
    } else {
      var k := |v| - 1;
      HornerIsPolynomial(p, AbsorbBlock(p, tag, v[0]), v[1..]);
      AbsorbSplit(p, tag, v[0], k);
      XorAssoc(Times(p.f, Power(p.f, p.a, |v|), tag), Times(p.f, Power(p.f, p.a, |v|), v[0]), KeyPolynomial(p, v[1..]));
    }
  }

  /** The message with zeros up to the next block boundary. */
  ghost function Padded(p: Setting, s: seq<Byte>): seq<Byte>
    requires p.Valid()
  {
    var r := Remaining(p.BlockSize(), s);
    if r == [] then s else s + ZeroBytes(p.BlockSize() - |r|)
  }

  lemma FinishedIsPadded(p: Setting, s: seq<Byte>)
    requires p.Valid()
    ensures GoodState(p, Initial())
    ensures Finished(p, Feed(p, Initial(), s)) == Feed(p, Initial(), Padded(p, s))
    ensures Remaining(p.BlockSize(), Padded(p, s)) == []
  {
    var st := Feed(p, Initial(), s);
    FeedIsHorner(p, Initial(), s);
    FeedIsHorner(p, Initial(), Padded(p, s));
    if st.rest != [] {
      FeedConcat(p, Initial(), s, ZeroBytes(p.BlockSize() - |st.rest|));
    }
  }

  /** The finished tag is the key polynomial of the zero-padded message. */
  lemma FinishedTag(p: Setting, s: seq<Byte>)
    requires p.Valid()
    ensures GoodState(p, Initial())
    ensures var v := BlockValues(p.BlockSize(), Padded(p, s));
      GoodBlocks(p, v) && Finished(p, Feed(p, Initial(), s)) == HashState(KeyPolynomial(p, v), [], |v|)
  {
    hide Times, Xor, Feed, Finished, Horner, KeyPolynomial, Padded;
    var v := BlockValues(p.BlockSize(), Padded(p, s));
    FinishedIsPadded(p, s);
    FeedIsHorner(p, Initial(), Padded(p, s));
    HornerIsPolynomial(p, 0, v);
    TimesZero(p.f, Power(p.f, p.a, |v|));
    XorZero(KeyPolynomial(p, v));
  }

  /** What adding one finished hash to another amounts to. */
  ghost function Joined(p: Setting, s: HashState, t: HashState): HashState
    requires GoodState(p, s) && GoodState(p, t)
  {
    HashState(Xor(Times(p.f, Power(p.f, p.a, t.blocks), s.tag), t.tag), [], s.blocks + t.blocks)
  }

  /** Adding two hashes gives the hash of one padded message followed by the other. */
  lemma JoinedIsConcatenation(p: Setting, s: seq<Byte>, t: seq<Byte>)
    requires p.Valid()
    ensures GoodState(p, Initial())
    ensures Joined(p, Finished(p, Feed(p, Initial(), s)), Finished(p, Feed(p, Initial(), t)))
         == Feed(p, Initial(), Padded(p, s) + Padded(p, t))
  {
    var n := p.BlockSize();
    var u, v := BlockValues(n, Padded(p, s)), BlockValues(n, Padded(p, t));
    FinishedTag(p, s);
    FinishedTag(p, t);
    FinishedIsPadded(p, s);
    FinishedIsPadded(p, t);
    hide Times, Xor, Feed, Finished, Horner, KeyPolynomial, Padded, Power, BlockValues, Remaining;
    FeedConcat(p, Initial(), Padded(p, s), Padded(p, t));
    var mid := Feed(p, Initial(), Padded(p, s));
    FeedIsHorner(p, mid, Padded(p, t));
    HornerIsPolynomial(p, mid.tag, v);
  }
}
