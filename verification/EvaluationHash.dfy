/** The buffered evaluation hash and the crypto context around it. */
module EvaluationHash {
  import opened Words
  import opened PowersOfTwo
  import opened BinaryPolynomials
  import opened BinaryField
  import opened Blobs
  import opened GaloisField2
  import opened FastMultiplication
  import opened HashSpecification
  import opened OneTimePad
  import opened Options

  /** The blob that the first bytes of a memory block stand for. */
  method BlobFromMemory(words: nat, bytes: seq<Byte>) returns (res: Blob)
    requires |bytes| >= 4 * words
    ensures |res| == words && Value(res) == BytesValue(bytes[..4 * words])
  {
    hide Value, BytesValue;
    res := [];
    ValueOne(0);
    NoBytes(bytes);
    for i := 0 to words
      invariant |res| == i && Value(res) == BytesValue(bytes[..4 * i])
    {
      var word := WordOf(bytes[4 * i], bytes[4 * i + 1], bytes[4 * i + 2], bytes[4 * i + 3]);
      NextWord(bytes, i);
      ValueLast(res, word);
      res := res + [word];
    }
  }

  lemma NoBytes(bytes: seq<Byte>)
    ensures BytesValue(bytes[..0]) == 0
  {}

  lemma NextWord(bytes: seq<Byte>, i: nat)
    requires 4 * (i + 1) <= |bytes|
    ensures BytesValue(bytes[..4 * (i + 1)]) == BytesValue(bytes[..4 * i]) * WORD_SIZE
      + WordOf(bytes[4 * i], bytes[4 * i + 1], bytes[4 * i + 2], bytes[4 * i + 3])
  {
    var s := bytes[..4 * (i + 1)];
    FourBytes(s);
    assert s[..|s| - 4] == bytes[..4 * i];
  }

  /** A word in network byte order. */
  function BytesOf(w: Word32): (s: seq<Byte>)
    ensures |s| == 4
  {
    [w / 0x100_0000, (w / 0x1_0000) % 0x100, (w / 0x100) % 0x100, w % 0x100]
  }

  function Memory(blob: Blob): (s: seq<Byte>)
    ensures |s| == 4 * |blob|
  {
    if blob == [] then [] else Memory(blob[..|blob| - 1]) + BytesOf(blob[|blob| - 1])
  }

  method BlobToMemory(blob: Blob) returns (res: seq<Byte>)
    ensures res == Memory(blob)
  {
    res := [];
    for i := 0 to |blob|
      invariant res == Memory(blob[..i])
    {
      assert blob[..i + 1][..i] == blob[..i];
      res := res + BytesOf(blob[i]);
    }
    assert blob[..|blob|] == blob;
  }

  lemma BytesOfWord(w: Word32)
    ensures var s := BytesOf(w); WordOf(s[0], s[1], s[2], s[3]) == w
  {
    var a := w / 0x100;
    var b := a / 0x100;
    assert w / 0x1_0000 == b && w / 0x100_0000 == b / 0x100;
  }

  /** Memory keeps the number. */
  lemma {:induction false} MemoryValue(blob: Blob)
    ensures BytesValue(Memory(blob)) == Value(blob)
  {
    hide BytesValue, Value, BytesOf;
    if blob == [] {
      NoBytes([]);
      ValueOne(0);
    } else {
      var u, w := blob[..|blob| - 1], blob[|blob| - 1];
      MemoryValue(u);
      var s := Memory(blob);
      assert s == Memory(u) + BytesOf(w);
      FourBytes(s);
      assert s[..|s| - 4] == Memory(u);
      BytesOfWord(w);
      ValueSplitLast(blob);
    }
  }

  /** A blob is determined by its length and its value. */
  lemma {:induction false} ValueInjective(s: Blob, t: Blob)
    requires |s| == |t| && Value(s) == Value(t)
    ensures s == t
  {
    hide Value;
    if s != [] {
      var n := |s| - 1;
      ValueSplitLast(s);
      ValueSplitLast(t);
      SameParts(Value(s[..n]), s[n], Value(t[..n]), t[n]);
      ValueInjective(s[..n], t[..n]);
      assert s == s[..n] + [s[n]] && t == t[..n] + [t[n]];
    }
  }

  lemma SameParts(a: nat, v: Word32, b: nat, w: Word32)
    requires a * WORD_SIZE + v == b * WORD_SIZE + w
    ensures a == b && v == w
  {}

  datatype SavedState = SavedState(tag: seq<Byte>, remainder: seq<Byte>, blocks: nat)

  /** The number of words, the modulus and the table layout for a key of the given number of bytes. */
  function Parameters(keyBytes: nat): Option<(nat, Word32, bool)> {
    if keyBytes == 4 then Some((1, 0x8d, false))
    else if keyBytes == 8 then Some((2, 0x1b, false))
    else if keyBytes == 12 then Some((3, 0x641, false))
    else if keyBytes == 16 then Some((4, 0x87, true))
    else if keyBytes == 32 then Some((8, 0x425, true))
    else None
  }

  lemma ParametersFit(keyBytes: nat)
    requires Parameters(keyBytes).Some?
    ensures var (words, modulus, twoStep) := Parameters(keyBytes).value;
      words > 0 && keyBytes == 4 * words && modulus < Pow2(11)
  {
    SmallPowers();
    Pow2Sum(8, 3);
  }

  class EvHash {
    const gf2: Gf2FastAlpha
    const remainder: array<Byte>
    var tag: Blob
    var remainderBytes: nat
    var blocks: nat

    ghost function Parameter(): Setting {
      Setting(gf2.gf.f, gf2.gf.words, Value(gf2.alpha))
    }

    ghost function Repr(): set<object> {
      {this, remainder, gf2.gf.bitReductionTable, gf2.multiplicationTable, gf2.multiplicationTable2,
       gf2.overflowTable, gf2.overflowTable2, gf2.alphaPow}
    }

    function BlockSize(): nat {
      4 * gf2.gf.words
    }

    ghost predicate Valid()
      reads Repr()
    {
      && gf2.Valid()
      && Parameter().Valid()
      && |tag| == gf2.gf.words
      && remainder.Length == BlockSize() && remainderBytes < BlockSize()
    }

    ghost function State(): HashState
      requires Valid()
      reads Repr()
    {
      HashState(Value(tag), remainder[..remainderBytes], blocks)
    }

    lemma StateIsGood()
      requires Valid()
      ensures GoodState(Parameter(), State())
    {
      ValueBound(tag);
    }

    constructor (key: seq<Byte>, words: nat, modulus: Word32, twoStep: bool, alpha: Blob)
      requires words > 0 && |key| == 4 * words && modulus < Pow2(11)
      requires |alpha| == words && Value(alpha) == BytesValue(key)
      ensures Valid() && fresh(Repr())
      ensures State() == Initial()
      ensures Parameter() == Setting(FieldOf(words, modulus), words, BytesValue(key))
    {
      gf2 := new Gf2FastAlpha(words, modulus, twoStep, alpha);
      tag := Zeros(words);
      remainder := new Byte[4 * words];
      remainderBytes := 0;
      blocks := 0;
      new;
      hide *;
      StartsInitial(words, modulus, key);
    }

    lemma StartsInitial(words: nat, modulus: Word32, key: seq<Byte>)
      requires gf2.Valid() && gf2.gf.words == words > 0 && gf2.gf.f == FieldOf(words, modulus)
      requires Value(gf2.alpha) == BytesValue(key)
      requires tag == Zeros(words) && remainder.Length == 4 * words && remainderBytes == blocks == 0
      ensures Valid() && State() == Initial()
      ensures Parameter() == Setting(FieldOf(words, modulus), words, BytesValue(key))
    {
      gf2.Facts();
      ZerosValue(words);
      assert remainder[..0] == [];
    }

    /** One block enters the tag. */
    method UpdateBlock(data: seq<Byte>)
      requires Valid() && |data| == BlockSize()
      modifies this
      ensures Valid() && remainderBytes == old(remainderBytes) && blocks == old(blocks) + 1
      ensures BytesValue(data) < Parameter().f.Size() && old(Value(tag)) < Parameter().f.Size()
      ensures Value(tag) == AbsorbBlock(Parameter(), old(Value(tag)), BytesValue(data))
    {
      hide Value, Xor, Times, BytesValue, Pow2;
      gf2.Facts();
      BytesBound(data, gf2.gf.words);
      ValueBound(tag);
      var coefficient := BlobFromMemory(gf2.gf.words, data);
      assert data[..4 * gf2.gf.words] == data;
      XorComm(Value(coefficient), Value(tag));
      tag := gf2.gf.Add(coefficient, tag);
      tag := gf2.TimesAlpha(tag);
      blocks := blocks + 1;
    }

    /** Copy bytes into the remainder buffer. */
    method Keep(at: nat, data: seq<Byte>)
      requires at + |data| <= remainder.Length
      modifies remainder
      ensures remainder[..at + |data|] == old(remainder[..at]) + data
    {
      for i := 0 to |data|
        invariant remainder[..at + i] == old(remainder[..at]) + data[..i]
      {
        remainder[at + i] := data[i];
      }
    }

    /** Whole blocks straight from the memory, the rest into the buffer. */
    method UpdateFrom(ghost p: Setting, ghost st: HashState, mem: seq<Byte>, from: nat)
      requires Valid() && remainderBytes == 0 && from <= |mem|
      requires p == Parameter() && GoodState(p, st) && State() == Feed(p, st, mem[..from])
      modifies this, remainder
      ensures Valid() && State() == Feed(p, st, mem)
    {
      hide Feed, Value, BytesValue, AbsorbBlock, gf2.Valid;
      var data := from;
      while |mem| - data >= BlockSize()
        invariant data <= |mem| && Valid() && remainderBytes == 0
        invariant State() == Feed(p, st, mem[..data])
      {
        ghost var now := State();
        FeedMore(p, st, mem, data, BlockSize());
        FeedBlock(p, now, mem[data..data + BlockSize()]);
        assert [] + mem[data..data + BlockSize()] == mem[data..data + BlockSize()];
        UpdateBlock(mem[data..data + BlockSize()]);
        data := data + BlockSize();
      }
      ghost var last := State();
      FeedMore(p, st, mem, data, |mem| - data);
      FeedShort(p, last, mem[data..]);
      assert mem[data..data + (|mem| - data)] == mem[data..] && mem[..|mem|] == mem;
      if |mem| - data > 0 {
        Keep(0, mem[data..]);
        remainderBytes := |mem| - data;
      }
      assert [] + mem[data..] == mem[data..];
    }

    /** Bytes are buffered until a block is full; the result is as if they had come one by one. */
    method Update(mem: seq<Byte>)
      requires Valid()
      modifies this, remainder
      ensures Valid()
      ensures GoodState(Parameter(), old(State()))
      ensures State() == Feed(Parameter(), old(State()), mem)
    {
      hide Feed, Value, BytesValue, AbsorbBlock, gf2.Valid;
      StateIsGood();
      ghost var p, st := Parameter(), State();
      if remainderBytes + |mem| < BlockSize() {
        FeedShort(p, st, mem);
        Keep(remainderBytes, mem);
        remainderBytes := remainderBytes + |mem|;
        return;
      }
      var data := 0;
      FeedEmpty(p, st);
      assert mem[..0] == [];
      if remainderBytes != 0 {
        var add := BlockSize() - remainderBytes;
        FeedBlock(p, st, mem[..add]);
        Keep(remainderBytes, mem[..add]);
        assert remainder[..BlockSize()] == remainder[..];
        UpdateBlock(remainder[..]);
        data := add;
        remainderBytes := 0;
      }
      UpdateFrom(p, st, mem, data);
    }

    /** Pad what is buffered to a whole block and hash it. */
    method Finalize() returns (res: seq<Byte>)
      requires Valid()
      modifies this, remainder
      ensures Valid()
      ensures GoodState(Parameter(), old(State()))
      ensures State() == Finished(Parameter(), old(State()))
      ensures res == Memory(tag)
    {
      hide Feed, Value, BytesValue, AbsorbBlock, Memory, gf2.Valid, Finished;
      StateIsGood();
      ghost var p, st := Parameter(), State();
      FinishedBlock(p, st);
      if remainderBytes > 0 {
        var padding := ZeroBytes(BlockSize() - remainderBytes);
        Keep(remainderBytes, padding);
        assert remainder[..BlockSize()] == remainder[..] == st.rest + padding;
        remainderBytes := 0;
        Update(remainder[..]);
      }
      res := BlobToMemory(tag);
    }

    /** Multiply the tag by the key as often as there are blocks to follow. */
    method MultiplyByKey(rounds: nat)
      requires Valid()
      modifies this
      ensures Valid() && remainderBytes == old(remainderBytes) && blocks == old(blocks) + rounds
      ensures old(Value(tag)) < Parameter().f.Size()
      ensures Value(tag) == Times(Parameter().f, Power(Parameter().f, Parameter().a, rounds), old(Value(tag)))
    {
      hide Value, Times, Power;
      gf2.Facts();
      tag := gf2.TimesAlphaPow(tag, rounds);
      blocks := blocks + rounds;
    }

    /** Add a foreign tag. */
    method AddTag(other: seq<Byte>)
      requires Valid() && |other| >= BlockSize()
      modifies this
      ensures Valid() && remainderBytes == old(remainderBytes) && blocks == old(blocks)
      ensures Value(tag) == Xor(old(Value(tag)), BytesValue(other[..BlockSize()]))
    {
      hide Value, Xor, BytesValue;
      var operand := BlobFromMemory(gf2.gf.words, other);
      XorComm(Value(operand), Value(tag));
      tag := gf2.gf.Add(operand, tag);
    }

    method GetState() returns (saved: SavedState)
      requires Valid()
      ensures saved == SavedState(Memory(tag), remainder[..remainderBytes], blocks)
    {
      var bytes := BlobToMemory(tag);
      saved := SavedState(bytes, remainder[..remainderBytes], blocks);
    }

    /** Take over a saved state; its remainder must fit the buffer. */
    method SetState(saved: SavedState)
      requires Valid() && |saved.tag| >= BlockSize() && |saved.remainder| < BlockSize()
      modifies this, remainder
      ensures Valid()
      ensures State() == HashState(BytesValue(saved.tag[..BlockSize()]), saved.remainder, saved.blocks)
    {
      hide Value, BytesValue;
      tag := BlobFromMemory(gf2.gf.words, saved.tag);
      Keep(0, saved.remainder);
      assert remainder[..0] == [];
      remainderBytes := |saved.remainder|;
      blocks := saved.blocks;
    }

    /** The hash for a key of one of the five supported lengths. */
    static method Create(key: seq<Byte>) returns (r: Option<EvHash>)
      ensures r.Some? <==> Parameters(|key|).Some?
      ensures r.Some? ==>
        var h, q := r.value, Parameters(|key|).value;
        h.Valid() && fresh(h.Repr()) && h.State() == Initial() && h.BlockSize() == |key|
        && q.0 > 0 && h.Parameter() == Setting(FieldOf(q.0, q.1), q.0, BytesValue(key))
    {
      hide Value, BytesValue, FieldOf, Pow2;
      var q := Parameters(|key|);
      if q.None? { return None; }
      ParametersFit(|key|);
      var (words, modulus, twoStep) := q.value;
      var alpha := BlobFromMemory(words, key);
      assert key[..4 * words] == key;
      var h := new EvHash(key, words, modulus, twoStep, alpha);
      r := Some(h);
    }
  }

  lemma FeedEmpty(p: Setting, st: HashState)
    requires GoodState(p, st)
    ensures Feed(p, st, []) == st
  {}

  lemma FeedMore(p: Setting, st: HashState, mem: seq<Byte>, i: nat, n: nat)
    requires GoodState(p, st) && i + n <= |mem|
    ensures Feed(p, st, mem[..i + n]) == Feed(p, Feed(p, st, mem[..i]), mem[i..i + n])
  {
    assert mem[..i + n] == mem[..i] + mem[i..i + n];
    FeedConcat(p, st, mem[..i], mem[i..i + n]);
  }

  /** A saved state, restored into another hash of the same key, is the same state again. */
  lemma SavedStateRestores(h: EvHash)
    requires h.Valid()
    ensures |Memory(h.tag)| == h.BlockSize()
    ensures h.State()
         == HashState(BytesValue(Memory(h.tag)[..h.BlockSize()]), h.remainder[..h.remainderBytes], h.blocks)
  {
    MemoryValue(h.tag);
    assert Memory(h.tag)[..h.BlockSize()] == Memory(h.tag);
  }

  /** The authentication context: a hash together with the key it was made from. */
  class CryptoEvhash {
    const evhash: EvHash
    const key: seq<Byte>

    ghost predicate Valid()
      reads evhash.Repr()
    {
      evhash.Valid() && |key| == evhash.BlockSize() && Value(evhash.gf2.alpha) == BytesValue(key)
      && Parameters(|key|).Some? && evhash.gf2.gf.f == FieldOf(evhash.gf2.gf.words, Parameters(|key|).value.1)
    }

    constructor (evhash: EvHash, key: seq<Byte>)
      ensures this.evhash == evhash && this.key == key
    {
      this.evhash := evhash;
      this.key := key;
    }

    /** A context for the key, unless the key has none of the supported lengths. */
    static method Create(key: seq<Byte>) returns (r: Option<CryptoEvhash>)
      ensures r.Some? <==> Parameters(|key|).Some?
      ensures r.Some? ==> r.value.Valid() && fresh(r.value.evhash.Repr()) && r.value.evhash.State() == Initial()
      ensures r.Some? ==> r.value.key == key
    {
      hide Value, BytesValue, FieldOf, Pow2;
      var h := EvHash.Create(key);
      if h.None? { return None; }
      var c := new CryptoEvhash(h.value, key);
      r := Some(c);
    }

    method AddMemory(mem: seq<Byte>)
      requires Valid()
      modifies evhash, evhash.remainder
      ensures Valid()
      ensures GoodState(evhash.Parameter(), old(evhash.State()))
      ensures evhash.State() == Feed(evhash.Parameter(), old(evhash.State()), mem)
    {
      evhash.Update(mem);
    }

    /** Add another context: refused for another key, otherwise the other's blocks follow ours. */
    method AddContext(other: CryptoEvhash) returns (ok: bool)
      requires Valid() && other.Valid()
      requires evhash != other.evhash ==> evhash.remainder != other.evhash.remainder
      modifies evhash, evhash.remainder, other.evhash, other.evhash.remainder
      ensures Valid() && other.Valid()
      ensures ok <==> key == other.key
      ensures !ok ==> evhash.State() == old(evhash.State()) && other.evhash.State() == old(other.evhash.State())
      ensures ok ==> other.evhash.Parameter() == evhash.Parameter()
      ensures ok ==>
        var p := evhash.Parameter();
        GoodState(p, old(evhash.State())) && GoodState(p, old(other.evhash.State()))
        && evhash.State() == Joined(p, Finished(p, old(evhash.State())), Finished(p, old(other.evhash.State())))
        && (evhash != other.evhash ==> other.evhash.State() == Finished(p, old(other.evhash.State())))
    {
      hide Value, BytesValue, FieldOf, Xor, Times, Power, Feed, Finished, Memory, evhash.gf2.Valid;
      if |key| != |other.key| || key != other.key {
        return false;
      }
      ghost var p := evhash.Parameter();
      evhash.StateIsGood();
      other.evhash.StateIsGood();
      ghost var s, t := evhash.State(), other.evhash.State();
      var tagThis := evhash.Finalize();
      ghost var sf := evhash.State();
      var tagOther := other.evhash.Finalize();
      FinishedTwice(p, s);
      ghost var tf := other.evhash.State();
      assert evhash.State() == sf;
      MemoryValue(other.evhash.tag);
      assert tagOther[..evhash.BlockSize()] == tagOther;
      evhash.MultiplyByKey(other.evhash.blocks);
      evhash.AddTag(tagOther);
      ok := true;
    }

    /** The tag masked by the final key, or nothing when that key has another length. */
    method FinalTag(finalKey: seq<Byte>) returns (res: Option<seq<Byte>>)
      requires Valid()
      modifies evhash, evhash.remainder
      ensures Valid()
      ensures GoodState(evhash.Parameter(), old(evhash.State()))
      ensures |finalKey| != |key| ==> res == None && evhash.State() == old(evhash.State())
      ensures |finalKey| == |key| ==>
        evhash.State() == Finished(evhash.Parameter(), old(evhash.State()))
        && |Memory(evhash.tag)| == |finalKey| && res == Some(Masked(Memory(evhash.tag), finalKey))
    {
      hide Finished, Value, BytesValue, FieldOf, Masked;
      evhash.StateIsGood();
      if |finalKey| != evhash.BlockSize() { return None; }
      var hashTag := evhash.Finalize();
      var pad := new CryptoXor();
      pad.AddMemory(hashTag);
      assert pad.data == hashTag;
      res := pad.Finalize(finalKey);
    }
  }

  lemma FinishedTwice(p: Setting, st: HashState)
    requires GoodState(p, st)
    ensures Finished(p, Finished(p, st)) == Finished(p, st)
  {}
}
