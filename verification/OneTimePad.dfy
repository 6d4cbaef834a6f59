/** The exclusive-or context: data is collected and masked by a final key, eight bytes at a time. */
module OneTimePad {
  import opened PowersOfTwo
  import opened BinaryPolynomials
  import opened Bits
  import opened Words
  import opened Options

  function ByteXor(a: Byte, b: Byte): (c: Byte) {
    SmallPowers();
    XorBound(a, b, 8);
    Xor(a, b)
  }

  function Masked(s: seq<Byte>, k: seq<Byte>): (r: seq<Byte>)
    requires |s| <= |k|
    ensures |r| == |s|
  {
    seq(|s|, i requires 0 <= i < |s| => ByteXor(s[i], k[i]))
  }

  /** A little-endian machine word of any width, read from and written to memory. */
  function Load(s: seq<Byte>): nat {
    if s == [] then 0 else s[0] as int + 256 * Load(s[1..])
  }

  function Store(w: nat, n: nat): (s: seq<Byte>)
    ensures |s| == n
    decreases n
  {
    if n == 0 then [] else [w % 256] + Store(w / 256, n - 1)
  }

  /** Masking a whole word masks its bytes. */
  lemma {:induction false} WordMask(s: seq<Byte>, k: seq<Byte>)
    requires |s| == |k|
    ensures Store(Xor(Load(s), Load(k)), |s|) == Masked(s, k)
    decreases |s|
  {
    hide Xor, ByteXor, Masked;
    if s != [] {
      WordMask(s[1..], k[1..]);
      LowByte(Load(s[1..]), s[0], Load(k[1..]), k[0]);
      MaskFirst(s, k);
    } else {
      MaskNothing(k);
    }
  }

  lemma LowByte(x: nat, a: Byte, y: nat, b: Byte)
    ensures var w := Xor(a as int + 256 * x, b as int + 256 * y);
      w % 256 == ByteXor(a, b) as int && w / 256 == Xor(x, y)
  {
    hide Xor, Pow2;
    SmallPowers();
    XorConcat(x, a, y, b, 8);
  }

  lemma MaskFirst(s: seq<Byte>, k: seq<Byte>)
    requires 0 < |s| <= |k|
    ensures Masked(s, k) == [ByteXor(s[0], k[0])] + Masked(s[1..], k[1..])
  {
    hide ByteXor;
  }

  lemma MaskAppend(s: seq<Byte>, k: seq<Byte>, i: nat, n: nat)
    requires |s| <= |k| && i + n <= |s|
    ensures Masked(s[..i + n], k) == Masked(s[..i], k) + Masked(s[i..i + n], k[i..i + n])
  {
    hide ByteXor;
  }

  class CryptoXor {
    var data: seq<Byte>

    constructor ()
      ensures data == []
    {
      data := [];
    }

    method AddMemory(mem: seq<Byte>)
      modifies this
      ensures data == old(data) + mem
    {
      data := data + mem;
    }

    /** The masked data, or nothing when the key is shorter than the data. */
    method Finalize(key: seq<Byte>) returns (res: Option<seq<Byte>>)
      ensures res == if |data| <= |key| then Some(Masked(data, key)) else None
    {
      hide Masked, Load, Store, Xor, ByteXor;
      if |key| < |data| { return None; }
      var out: seq<Byte> := [];
      var at: nat, count: nat := 0, |data|;
      MaskNothing(key);
      assert data[..0] == [];
      while count > 8
        invariant at + count == |data| <= |key| && out == Masked(data[..at], key)
      {
        MaskAppend(data, key, at, 8);
        WordMask(data[at..at + 8], key[at..at + 8]);
        out := out + Store(Xor(Load(data[at..at + 8]), Load(key[at..at + 8])), 8);
        at, count := at + 8, count - 8;
      }
      for i := 0 to count
        invariant at + count == |data| <= |key| && out == Masked(data[..at + i], key)
      {
        MaskAppend(data, key, at + i, 1);
        MaskOne(data, key, at + i);
        out := out + [ByteXor(data[at + i], key[at + i])];
      }
      assert data[..at + count] == data;
      res := Some(out);
    }
  }

  lemma MaskNothing(k: seq<Byte>)
    ensures Masked([], k) == []
  {}

  lemma MaskOne(s: seq<Byte>, k: seq<Byte>, i: nat)
    requires i < |s| <= |k|
    ensures Masked(s[i..i + 1], k[i..i + 1]) == [ByteXor(s[i], k[i])]
  {}

  /** Masking twice with the same key gives the data back. */
  lemma MaskTwice(s: seq<Byte>, k: seq<Byte>)
    requires |s| <= |k|
    ensures Masked(Masked(s, k), k) == s
  {
    hide Xor;
    forall i | 0 <= i < |s|
      ensures ByteXor(ByteXor(s[i], k[i]), k[i]) == s[i]
    {
      XorAssoc(s[i], k[i], k[i]);
      XorSelf(k[i]);
      XorZero(s[i]);
    }
  }

  /** Bit for bit, masked data is the sum of data and key. */
  lemma MaskedBits(s: seq<Byte>, k: seq<Byte>, i: nat, b: nat)
    requires |s| <= |k| && i < |s|
    ensures BitAt(Masked(s, k)[i], b) == (BitAt(s[i], b) + BitAt(k[i], b)) % 2
  {
    hide Xor, BitAt;
    XorBitAt(s[i], k[i], b);
  }

  /** For all data and every outcome there is exactly one key of that length: the outcome tells nothing of the data. */
  lemma ExactlyOneKey(s: seq<Byte>, c: seq<Byte>)
    requires |s| == |c|
    ensures Masked(s, Masked(s, c)) == c
    ensures forall k: seq<Byte> :: |k| == |s| && Masked(s, k) == c ==> k == Masked(s, c)
  {
    hide Masked;
    KeyBack(s, c);
    forall k: seq<Byte> | |k| == |s| && Masked(s, k) == c
      ensures k == Masked(s, c)
    {
      KeyBack(s, k);
    }
  }

  lemma KeyBack(s: seq<Byte>, k: seq<Byte>)
    requires |s| == |k|
    ensures Masked(s, Masked(s, k)) == k
  {
    hide Xor;
    forall i | 0 <= i < |s|
      ensures ByteXor(s[i], ByteXor(s[i], k[i])) == k[i]
    {
      XorAssoc(s[i], s[i], k[i]);
      XorSelf(s[i]);
      XorZero(k[i]);
    }
  }
}
