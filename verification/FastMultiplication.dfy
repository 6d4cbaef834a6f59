/** Table-driven multiplication by one fixed element alpha and by its powers. */
module FastMultiplication {
  import opened Words
  import opened PowersOfTwo
  import opened BinaryPolynomials
  import opened Bits
  import opened BinaryField
  import opened Blobs
  import opened BlobShifts
  import opened GaloisField2

  const PRECALC_BITS: nat := 8
  const PRECALC_SIZE: nat := 256
  const MAX_POW: nat := 20

  /** A product whose degrees leave room below x^n needs no reduction. */
  lemma {:induction false} SmallTimes(f: Field, a: nat, p: nat, b: nat, q: nat)
    requires f.Valid() && a < Pow2(p) && b < Pow2(q) && p + q <= f.n && b < f.Size()
    ensures Times(f, a, b) < Pow2(p + q)
    decreases p
  {
    hide Times, Xor, TimesX;
    Pow2Step(0);
    if a == 0 {
      TimesNothing(f, b);
    } else {
      SmallTimes(f, a / 2, p - 1, b, q);
      Pow2Step(p + q - 1);
      Pow2Monotone(p + q, f.n);
      Pow2Monotone(q, p + q);
      var t := Times(f, a / 2, b);
      SmallDouble(f, t);
      TimesStep(f, a, b);
      XorBound(2 * t, Scale(a, b), p + q);
    }
  }

  lemma SmallDouble(f: Field, t: nat)
    requires f.Valid() && 2 * t < f.Size()
    ensures TimesX(f, t) == 2 * t
  {}

  /** Changing the low word of a blob adds a one-word polynomial. */
  lemma XorLowWord(x: Blob, w: Word32)
    requires x != []
    ensures var n := |x|; Value(x[n - 1 := WordXor(x[n - 1], w)]) == Xor(Value(x), w)
  {
    hide Value, Pow2, Xor;
    var n := |x|;
    var y := SmallBlob(n, w);
    forall i | 0 <= i < n - 1
      ensures WordXor(x[i], y[i]) == x[i]
    {
      XorZero(x[i]);
    }
    assert x[n - 1 := WordXor(x[n - 1], w)] == BlobXor(x, y);
    BlobXorValue(x, y);
    SmallBlobValue(n, w);
  }

  /** What leaves the field at the top comes back multiplied by g. */
  lemma OverflowComesBack(f: Field, num: nat, v: nat)
    requires f.Valid() && 1 < f.Size() && num < f.Size() && v < f.Size()
    ensures Times(f, num + v * f.Size(), 1) == Xor(num, Times(f, f.g, v))
  {
    hide Times, Xor, Pow2, Shifted;
    XorDisjoint(v, num, f.n);
    TimesLinearLeft(f, num, v * f.Size(), 1);
    TimesOne(f, num);
    TimesPower(f, v, f.n, 1);
    TimesOne(f, v);
    PowerTimes(f, v, f.n);
    TimesModulus(f, v);
  }

  lemma SplitByte(v: nat)
    ensures v == (v / 256) * 256 + v % 256
    ensures Xor((v / 256) * 256, v % 256) == v
  {
    hide Xor;
    SmallPowers();
    XorDisjoint(v / 256, v % 256, 8);
  }

  /** alpha^k */
  ghost function Power(f: Field, a: nat, k: nat): (p: nat)
    requires f.Valid() && 1 < f.Size() && a < f.Size()
    ensures p < f.Size()
  {
    if k == 0 then 1 else Times(f, a, Power(f, a, k - 1))
  }

  lemma {:induction false} PowerSum(f: Field, a: nat, p: nat, q: nat)
    requires f.Valid() && 1 < f.Size() && a < f.Size()
    ensures Power(f, a, p + q) == Times(f, Power(f, a, p), Power(f, a, q))
    decreases p
  {
    hide Times;
    if p == 0 {
      TimesComm(f, 1, Power(f, a, q));
      TimesOne(f, Power(f, a, q));
    } else {
      PowerSum(f, a, p - 1, q);
      TimesAssoc(f, a, Power(f, a, p - 1), Power(f, a, q));
    }
  }

  lemma PowerOne(f: Field, a: nat)
    requires f.Valid() && 1 < f.Size() && a < f.Size()
    ensures Power(f, a, 1) == a
  {
    hide Times;
    TimesOne(f, a);
    assert Power(f, a, 1) == Times(f, a, Power(f, a, 0));
  }

  lemma FullFits(f: Field, x: nat, y: nat)
    requires f.Valid() && x < f.Size() && y < f.Size()
    ensures Fits(x, y, 2 * f.n)
  {
    hide Pow2;
    Pow2Sum(f.n, f.n);
    StrictProduct(x, f.Size(), f.Size());
    ProductAtLeast(f.Size(), y, x);
  }

  /** The value of big-endian chunks of h bits. */
  ghost function Chunks(b: seq<Word32>, h: nat): nat {
    if b == [] then 0 else Chunks(b[..|b| - 1], h) * Pow2(h) + b[|b| - 1]
  }

  lemma ChunksLast(b: seq<Word32>, c: Word32, h: nat)
    ensures Chunks(b + [c], h) == Chunks(b, h) * Pow2(h) + c
  {
    assert (b + [c])[..|b|] == b;
  }

  datatype AlphaPow = AlphaPow(nPow: nat, nValue: Blob)

  ghost predicate IsBlob(x: Blob, words: nat, v: nat) {
    |x| == words && Value(x) == v
  }

  /** v * x^n, reduced, fits one word. */
  ghost predicate IsOverflow(f: Field, w: Word32, v: nat) {
    f.Valid() && v < f.Size() && w == Times(f, f.g, v)
  }

  ghost predicate IsMultiple(f: Field, words: nat, b: Blob, a: nat, v: nat) {
    f.Valid() && a < f.Size() && IsBlob(b, words, Times(f, v, a))
  }

  ghost predicate IsPower(f: Field, words: nat, e: AlphaPow, a: nat, j: nat) {
    && f.Valid() && 1 < f.Size() && a < f.Size()
    && e.nPow == Pow2(j) && IsBlob(e.nValue, words, Power(f, a, e.nPow))
  }

  class Gf2FastAlpha {
    const gf: Gf2
    const twoStep: bool
    const alpha: Blob
    const multiplicationTable: array<Blob>
    const multiplicationTable2: array<Blob>
    const overflowTable: array<Word32>
    const overflowTable2: array<Word32>
    const alphaPow: array<AlphaPow>

    function HornerBits(): nat {
      if twoStep then 2 * PRECALC_BITS else PRECALC_BITS
    }

    function HornerSize(): nat {
      if twoStep then 0x1_0000 else PRECALC_SIZE
    }

    ghost predicate Base()
      reads gf.bitReductionTable
    {
      && gf.Ready(64 * gf.words)
      && gf.f.g < Pow2(11)
      && |alpha| == gf.words && Value(alpha) < gf.f.Size()
      && multiplicationTable.Length == multiplicationTable2.Length == PRECALC_SIZE
      && overflowTable.Length == overflowTable2.Length == PRECALC_SIZE
      && multiplicationTable != multiplicationTable2 && overflowTable != overflowTable2
      && gf.bitReductionTable != multiplicationTable && gf.bitReductionTable != multiplicationTable2
      && alphaPow.Length == MAX_POW
    }

    ghost predicate OverflowRows(n: nat)
      requires Base() && n <= PRECALC_SIZE
      reads gf.bitReductionTable, overflowTable, overflowTable2
    {
      forall i :: 0 <= i < n ==>
        IsOverflow(gf.f, overflowTable[i], i) && (twoStep ==> IsOverflow(gf.f, overflowTable2[i], i * 256))
    }

    ghost predicate MultiplicationRows(n: nat)
      requires Base() && n <= PRECALC_SIZE
      reads gf.bitReductionTable, multiplicationTable, multiplicationTable2
    {
      forall i :: 0 <= i < n ==>
        && IsMultiple(gf.f, gf.words, multiplicationTable[i], Value(alpha), i)
        && (twoStep ==> IsMultiple(gf.f, gf.words, multiplicationTable2[i], Value(alpha), i * 256))
    }

    ghost predicate PowerRows(n: nat)
      requires Base() && n <= MAX_POW
      reads gf.bitReductionTable, alphaPow
    {
      forall i :: n <= i < MAX_POW ==> IsPower(gf.f, gf.words, alphaPow[i], Value(alpha), MAX_POW - 1 - i)
    }

    ghost predicate Valid()
      reads gf.bitReductionTable, multiplicationTable, multiplicationTable2, overflowTable, overflowTable2, alphaPow
    {
      Base() && OverflowRows(PRECALC_SIZE) && MultiplicationRows(PRECALC_SIZE) && PowerRows(0)
    }

    constructor (words: nat, modulus: Word32, twoStep: bool, key: Blob)
      requires words > 0 && modulus < Pow2(11) && |key| == words
      ensures Valid()
      ensures fresh(gf.bitReductionTable) && fresh(multiplicationTable) && fresh(multiplicationTable2)
      ensures fresh(overflowTable) && fresh(overflowTable2) && fresh(alphaPow)
      ensures gf.words == words && gf.f == FieldOf(words, modulus) && this.twoStep == twoStep && alpha == key
    {
      gf := new Gf2(words, modulus);
      this.twoStep := twoStep;
      alpha := key;
      multiplicationTable := new Blob[PRECALC_SIZE];
      multiplicationTable2 := new Blob[PRECALC_SIZE];
      overflowTable := new Word32[PRECALC_SIZE];
      overflowTable2 := new Word32[PRECALC_SIZE];
      alphaPow := new AlphaPow[MAX_POW];
      new;
      FieldOfParts(words, modulus);
      hide *;
      StartBase(key);
      SetupTables();
    }

    lemma StartBase(key: Blob)
      requires gf.Ready(64 * gf.words) && gf.f.g < Pow2(11) && gf.f.n == 32 * gf.words
      requires |key| == gf.words && alpha == key
      requires multiplicationTable.Length == multiplicationTable2.Length == PRECALC_SIZE
      requires overflowTable.Length == overflowTable2.Length == PRECALC_SIZE
      requires multiplicationTable != multiplicationTable2 && overflowTable != overflowTable2
      requires gf.bitReductionTable != multiplicationTable && gf.bitReductionTable != multiplicationTable2
      requires alphaPow.Length == MAX_POW
      ensures Base()
    {
      hide Value, Pow2, Gf2.Ready;
      ValueBound(key);
    }

    method SetupTables()
      requires Base()
      modifies overflowTable, overflowTable2, multiplicationTable, multiplicationTable2, alphaPow
      ensures Valid()
    {
      hide Value, Pow2, Times, OverflowRows, MultiplicationRows, PowerRows;
      SetupOverflowTable();
      PrecalcBlobMultiplication();
      PrecalcAlphaPow();
    }

    lemma SmallIndex(i: nat)
      requires Base() && i < 0x1_0000
      ensures 0x1_0000 <= gf.f.Size() && Fits(i, gf.f.g, 64 * gf.words) && Fits(Value(alpha), i, 64 * gf.words)
      ensures Times(gf.f, gf.f.g, i) < WORD_SIZE
    {
      hide Pow2, Times, Value, Fits;
      Pow2Monotone(16, gf.f.n);
      Pow2Monotone(27, 32);
      SmallPowers();
      SmallTimes(gf.f, gf.f.g, 11, i, 16);
      FullFits(gf.f, i, gf.f.g);
      FullFits(gf.f, Value(alpha), i);
    }

    /** The low word of i times the modulus remainder, which is the whole product. */
    method OverflowEntry(i: nat) returns (w: Word32)
      requires Base() && i < 0x1_0000
      ensures IsOverflow(gf.f, w, i)
    {
      hide Pow2, Times, Value, Fits;
      SmallIndex(i);
      var tmp := SmallBlob(gf.words, i);
      SmallBlobValue(gf.words, i);
      tmp := gf.Mul(tmp, gf.modulusEquiv, 64 * gf.words);
      SmallBlobUnique(tmp);
      w := tmp[gf.words - 1];
    }

    method SetupOverflowTable()
      requires Base()
      modifies overflowTable, overflowTable2
      ensures OverflowRows(PRECALC_SIZE)
    {
      hide IsOverflow;
      for i := 0 to PRECALC_SIZE
        invariant OverflowRows(i)
      {
        overflowTable[i] := OverflowEntry(i);
        if twoStep {
          overflowTable2[i] := OverflowEntry(i * PRECALC_SIZE);
        }
      }
    }

    method MultiplicationEntry(i: nat) returns (b: Blob)
      requires Base() && i < 0x1_0000
      ensures IsMultiple(gf.f, gf.words, b, Value(alpha), i)
    {
      hide Pow2, Times, Value, Fits;
      SmallIndex(i);
      SmallBlobValue(gf.words, i);
      b := gf.Mul(alpha, SmallBlob(gf.words, i), 64 * gf.words);
    }

    method PrecalcBlobMultiplication()
      requires Base()
      modifies multiplicationTable, multiplicationTable2
      ensures MultiplicationRows(PRECALC_SIZE)
    {
      hide IsMultiple;
      for i := 0 to PRECALC_SIZE
        invariant MultiplicationRows(i)
      {
        multiplicationTable[i] := MultiplicationEntry(i);
        if twoStep {
          multiplicationTable2[i] := MultiplicationEntry(i * PRECALC_SIZE);
        }
      }
    }

    /** alpha, alpha^2, alpha^4, ... by repeated squaring, stored from the end of the table. */
    method PrecalcAlphaPow()
      requires Base()
      modifies alphaPow
      ensures PowerRows(0)
    {
      hide Times, Power, Value, Fits;
      var value := alpha;
      ghost var a := Value(alpha);
      PowerOne(gf.f, a);
      Pow2Step(0);
      alphaPow[MAX_POW - 1] := AlphaPow(1, value);
      var j := 1;
      for i := MAX_POW - 1 downto 0
        invariant j == MAX_POW - i
        invariant IsBlob(value, gf.words, Power(gf.f, a, Pow2(j - 1)))
        invariant PowerRows(i)
      {
        ghost var p := Pow2(j - 1);
        FullFits(gf.f, Value(value), Value(value));
        PowerSum(gf.f, a, p, p);
        Pow2Step(j - 1);
        value := gf.Mul(value, value, 64 * gf.words);
        alphaPow[i] := AlphaPow(Pow2(j), value);
        j := j + 1;
      }
    }

    lemma Facts()
      requires Base()
      ensures gf.words > 0 && gf.f.Valid() && 1 < gf.f.Size() && gf.f.n == 32 * gf.words
      ensures Pow2(HornerBits()) == HornerSize() <= 0x1_0000 < gf.f.Size()
      ensures Value(alpha) < gf.f.Size() && |alpha| == gf.words
    {
      hide Value;
      SmallPowers();
      Pow2Monotone(17, gf.f.n);
      Pow2Sum(16, 1);
    }

    /** The table entries for the bits that left the field add up to those bits times g. */
    lemma TableOverflow(v: nat)
      requires Valid() && v < HornerSize()
      ensures v < gf.f.Size()
      ensures !twoStep ==> (v < PRECALC_SIZE && overflowTable[v] == Times(gf.f, gf.f.g, v))
      ensures twoStep ==> (
        && v / PRECALC_SIZE < PRECALC_SIZE
        && Xor(overflowTable2[v / PRECALC_SIZE], overflowTable[v % PRECALC_SIZE]) == Times(gf.f, gf.f.g, v))
    {
      Facts();
      hide Xor, Times, Value, Pow2;
      if twoStep {
        var v1, v0 := v / 256, v % 256;
        SplitByte(v);
        assert IsOverflow(gf.f, overflowTable2[v1], v1 * 256) && IsOverflow(gf.f, overflowTable[v0], v0);
        TimesLinearRight(gf.f, gf.f.g, v1 * 256, v0);
      } else {
        assert IsOverflow(gf.f, overflowTable[v], v);
      }
    }

    /** blob * x^HornerBits in the field, touching only the lowest word after the shift. */
    method PrecalcShift(blob: Blob) returns (res: Blob)
      requires Valid() && |blob| == gf.words && Value(blob) < gf.f.Size()
      ensures |res| == gf.words && Value(res) == Shifted(gf.f, Value(blob), HornerBits())
    {
      Facts();
      hide Value, Pow2, Xor, Times, Shifted, Valid, Base;
      var overflowBlob;
      res, overflowBlob := BlobShiftLeft(blob, HornerBits());
      ShiftOverflow(blob, res, overflowBlob, HornerBits(), gf.f);
      SmallBlobUnique(overflowBlob);
      var overflow := overflowBlob[gf.words - 1];
      OverflowOfNothing(gf.f, Value(res));
      if overflow != 0 { res := PatchLowWord(res, overflow); }
    }

    /** Add the bits that left the field, times g, which fits the lowest word. */
    method PatchLowWord(blob: Blob, overflow: Word32) returns (res: Blob)
      requires Valid() && |blob| == gf.words > 0 && overflow < HornerSize()
      ensures overflow < gf.f.Size() && |res| == gf.words
      ensures Value(res) == Xor(Value(blob), Times(gf.f, gf.f.g, overflow))
    {
      TableOverflow(overflow);
      hide Value, Xor, Times, WordXor, Valid, Base;
      var last, index0 := gf.words - 1, overflow;
      res := blob;
      if twoStep {
        var index := overflow / PRECALC_SIZE;
        index0 := overflow % PRECALC_SIZE;
        XorLowWord(res, overflowTable2[index]);
        XorAssoc(Value(res), overflowTable2[index], overflowTable[index0]);
        res := res[last := WordXor(res[last], overflowTable2[index])];
      }
      XorLowWord(res, overflowTable[index0]);
      res := res[last := WordXor(res[last], overflowTable[index0])];
    }

    /** One step of the product: a chunk of the factor, looked up. */
    method AddChunk(product: Blob, chunk: Word32) returns (res: Blob)
      requires Valid() && |product| == gf.words && chunk < HornerSize()
      ensures |res| == gf.words && Value(alpha) < gf.f.Size()
      ensures Value(res) == Xor(Value(product), Times(gf.f, chunk, Value(alpha)))
    {
      Facts();
      hide Value, Pow2, Xor, Times;
      res := product;
      var b := chunk;
      ghost var a := Value(alpha);
      if twoStep {
        var index := b / PRECALC_SIZE;
        SplitByte(b);
        TimesLinearLeft(gf.f, index * 256, b % 256, a);
        assert IsMultiple(gf.f, gf.words, multiplicationTable2[index], a, index * 256);
        XorAssoc(Value(product), Times(gf.f, index * 256, a), Times(gf.f, b % 256, a));
        res := gf.Add(res, multiplicationTable2[index]);
        b := b % PRECALC_SIZE;
      }
      assert IsMultiple(gf.f, gf.words, multiplicationTable[b], a, b);
      res := gf.Add(res, multiplicationTable[b]);
    }

    /** One Horner step: shift the product so far and add the next chunk. */
    method HornerStep(product: Blob, chunk: Word32, ghost c: nat) returns (res: Blob)
      requires Valid() && |product| == gf.words && chunk < HornerSize() && Value(alpha) < gf.f.Size()
      requires Value(product) == Times(gf.f, c, Value(alpha))
      ensures |res| == gf.words
      ensures Value(res) == Times(gf.f, c * Pow2(HornerBits()) + chunk, Value(alpha))
    {
      Facts();
      hide Value, Pow2, Times, Xor, Shifted, Valid, Base, HornerBits, HornerSize;
      res := PrecalcShift(product);
      res := AddChunk(res, chunk);
      HornerChunk(gf.f, c, chunk, HornerBits(), Value(alpha));
    }

    /** The chunks of one word, high bits first, behind those of the words before it. */
    method WordChunks(b0: seq<Word32>, word: Word32, ghost v: nat) returns (b: seq<Word32>)
      requires Pow2(HornerBits()) == HornerSize() && Chunks(b0, HornerBits()) == v
      requires forall k :: 0 <= k < |b0| ==> b0[k] < HornerSize()
      ensures |b| * HornerBits() == |b0| * HornerBits() + 32
      ensures Chunks(b, HornerBits()) == v * Pow2(32 - 0) + Shr(word, 0)
      ensures forall k :: 0 <= k < |b| ==> b[k] < HornerSize()
    {
      hide Pow2, Chunks, Shr;
      var h, size := HornerBits(), HornerSize();
      b := b0;
      ChunkWordStart(v, word);
      for j := WORD_BITS / h downto 0
        invariant |b| * h == |b0| * h + 32 - h * j && h * j <= 32
        invariant Chunks(b, h) == v * Pow2(32 - h * j) + Shr(word, h * j)
        invariant forall k :: 0 <= k < |b| ==> b[k] < size
      {
        var c := Shr(word, h * j) % size;
        ChunkStep(v, word, h, size, j);
        ChunksLast(b, c, h);
        b := b + [c];
      }
    }

    /** The chunks of a blob, most significant first. */
    method SplitChunks(blob: Blob) returns (b: seq<Word32>)
      requires Base() && |blob| == gf.words
      ensures |b| * HornerBits() == 32 * gf.words && Chunks(b, HornerBits()) == Value(blob)
      ensures forall i :: 0 <= i < |b| ==> b[i] < HornerSize()
    {
      Facts();
      hide Value, Pow2, Chunks, Shr, Base;
      var h := HornerBits();
      b := [];
      ChunksNone(h);
      for i := 0 to gf.words
        invariant |b| * h == 32 * i && Chunks(b, h) == Value(blob[..i])
        invariant forall k :: 0 <= k < |b| ==> b[k] < HornerSize()
      {
        ghost var v := Value(blob[..i]);
        b := WordChunks(b, blob[i], v);
        ChunkWordEnd(blob, i);
      }
      ValueWhole(blob);
    }

    lemma HornerStart()
      requires Valid()
      ensures Base() && gf.words > 0 && gf.f.Valid() && Value(alpha) < gf.f.Size()
      ensures |Zeros(gf.words)| == gf.words
      ensures Value(Zeros(gf.words)) == Times(gf.f, Chunks([], HornerBits()), Value(alpha))
    {
      Facts();
      hide Value, Times, Zeros;
      ZerosValue(gf.words);
      TimesNothing(gf.f, Value(alpha));
    }

    /** blob * alpha in the field, by table lookups. */
    method TimesAlpha(blob: Blob) returns (res: Blob)
      requires Valid() && |blob| == gf.words
      ensures |res| == gf.words && Value(alpha) < gf.f.Size()
      ensures Value(res) == Times(gf.f, Value(blob), Value(alpha))
    {
      HornerStart();
      hide Value, Pow2, Chunks, Times, Valid, Base, HornerBits, HornerSize, Zeros;
      ghost var a := Value(alpha);
      var b := SplitChunks(blob);
      res := Zeros(gf.words);
      for i := 0 to |b|
        invariant |res| == gf.words
        invariant Value(res) == Times(gf.f, Chunks(b[..i], HornerBits()), a)
      {
        res := HornerStep(res, b[i], Chunks(b[..i], HornerBits()));
        ChunksNext(b, i, HornerBits());
      }
      ChunksWhole(b, HornerBits());
    }

    lemma PowerEntry(i: nat)
      requires Valid() && i < MAX_POW
      ensures alphaPow.Length == MAX_POW && gf.Ready(64 * gf.words)
      ensures IsPower(gf.f, gf.words, alphaPow[i], Value(alpha), MAX_POW - 1 - i)
    {}

    /** The last entry is the first power, so the search ends there at the latest. */
    lemma EntryPower(i: nat)
      requires Valid() && i < MAX_POW
      ensures alphaPow.Length == MAX_POW && alphaPow[i].nPow >= 1
      ensures i == MAX_POW - 1 ==> alphaPow[i].nPow == 1
    {
      hide Valid, Base, IsBlob, Power;
      PowerEntry(i);
    }

    lemma PowersStart(blob: Blob)
      requires Valid() && |blob| == gf.words
      ensures 0 < MAX_POW && gf.f.Valid() && 1 < gf.f.Size() && Value(alpha) < gf.f.Size() && Value(blob) < gf.f.Size()
      ensures Times(gf.f, Power(gf.f, Value(alpha), 0), Value(blob)) == Value(blob)
    {
      Facts();
      hide Value, Pow2, Times, Power;
      gf.FieldFacts(blob, 64 * gf.words);
      PowerStart(gf.f, Value(alpha), Value(blob));
    }

    /** blob * alpha^n in the field, for every n: the search never leaves the table. */
    method TimesAlphaPow(blob: Blob, n: nat) returns (res: Blob)
      requires Valid() && |blob| == gf.words
      ensures |res| == gf.words && Value(alpha) < gf.f.Size() && Value(blob) < gf.f.Size()
      ensures Value(res) == Times(gf.f, Power(gf.f, Value(alpha), n), Value(blob))
    {
      hide *;
      PowersStart(blob);
      ghost var a, v := Value(alpha), Value(blob);
      var powIndex := 0;
      var left := n;
      res := blob;
      while left > 0
        invariant 0 <= left <= n && powIndex < MAX_POW && |res| == gf.words
        invariant Value(res) == Times(gf.f, Power(gf.f, a, n - left), v)
        decreases left, MAX_POW - powIndex
      {
        EntryPower(powIndex);
        if left >= alphaPow[powIndex].nPow {
          res := TimesEntry(res, powIndex, n - left, v);
          left := left - alphaPow[powIndex].nPow;
        } else {
          powIndex := powIndex + 1;
        }
      }
    }

    /** Multiply by one entry of the power table. */
    method TimesEntry(blob: Blob, i: nat, ghost done: nat, ghost v: nat) returns (res: Blob)
      requires Valid() && |blob| == gf.words && i < MAX_POW && v < gf.f.Size() && Value(alpha) < gf.f.Size()
      requires Value(blob) == Times(gf.f, Power(gf.f, Value(alpha), done), v)
      ensures |res| == gf.words
      ensures Value(res) == Times(gf.f, Power(gf.f, Value(alpha), done + alphaPow[i].nPow), v)
    {
      PowerEntryTimes(blob, i, done, v);
      hide *;
      res := gf.Mul(blob, alphaPow[i].nValue, 64 * gf.words);
    }

    lemma PowerEntryTimes(blob: Blob, i: nat, done: nat, v: nat)
      requires Valid() && |blob| == gf.words && i < MAX_POW && v < gf.f.Size() && Value(alpha) < gf.f.Size()
      requires Value(blob) == Times(gf.f, Power(gf.f, Value(alpha), done), v)
      ensures alphaPow.Length == MAX_POW && gf.Ready(64 * gf.words)
      ensures |alphaPow[i].nValue| == gf.words && Fits(Value(blob), Value(alphaPow[i].nValue), 64 * gf.words)
      ensures Value(blob) < gf.f.Size()
      ensures Times(gf.f, Value(alphaPow[i].nValue), Value(blob))
           == Times(gf.f, Power(gf.f, Value(alpha), done + alphaPow[i].nPow), v)
    {
      PowerEntry(i);
      Facts();
      hide Value, Pow2, Times, Power, Fits, Valid, Base, gf.Ready;
      PowerMore(gf.f, Value(alpha), alphaPow[i].nPow, done, v);
      FullFits(gf.f, Value(blob), Value(alphaPow[i].nValue));
    }
  }

  lemma ShiftOverflow(blob: Blob, tmp: Blob, overflow: Blob, h: nat, f: Field)
    requires |tmp| == |blob| == |overflow| > 0 && f.Valid() && 1 < f.Size() && f.n == 32 * |blob| && h <= 16
    requires Value(blob) < f.Size()
    requires Value(blob) * Pow2(h) == Value(tmp) + Value(overflow) * Pow2(32 * |blob|)
    ensures Value(overflow) < Pow2(h) <= 0x1_0000 && Value(overflow) < WORD_SIZE && Value(tmp) < f.Size()
    ensures Value(overflow) < f.Size()
    ensures Shifted(f, Value(blob), h) == Xor(Value(tmp), Times(f, f.g, Value(overflow)))
  {
    hide Value, Pow2, Xor, Times, Shifted;
    ValueBound(tmp);
    Pow2Monotone(h, 16);
    Pow2Monotone(16, f.n);
    SmallPowers();
    var v := Value(overflow);
    if v >= Pow2(h) {
      ProductAtLeast(v, Pow2(h), f.Size());
      StrictProduct(Value(blob), f.Size(), Pow2(h));
    }
    TimesPower(f, Value(blob), h, 1);
    TimesOne(f, Value(blob));
    OverflowComesBack(f, Value(tmp), v);
  }

  lemma OverflowOfNothing(f: Field, v: nat)
    requires f.Valid()
    ensures Xor(v, Times(f, f.g, 0)) == v
  {
    TimesZero(f, f.g);
    XorZero(v);
  }

  lemma ChunksNext(b: seq<Word32>, i: nat, h: nat)
    requires i < |b|
    ensures Chunks(b[..i + 1], h) == Chunks(b[..i], h) * Pow2(h) + b[i]
  {
    assert b[..i + 1] == b[..i] + [b[i]];
    ChunksLast(b[..i], b[i], h);
  }

  lemma ChunksWhole(b: seq<Word32>, h: nat)
    ensures Chunks(b[..|b|], h) == Chunks(b, h) && Chunks(b[..0], h) == 0
  {
    assert b[..|b|] == b;
  }

  lemma ValueWhole(b: Blob)
    ensures Value(b[..|b|]) == Value(b) && Value(b[..0]) == 0
  {
    assert b[..|b|] == b;
  }

  lemma ChunksNone(h: nat)
    ensures Chunks([], h) == 0 && Value([]) == 0
  {}

  lemma ChunkWordStart(v: nat, word: Word32)
    ensures v * Pow2(32 - 32) + Shr(word, 32) == v
  {
    SmallPowers();
    ShrNothing(word, 32);
    assert Pow2(0) == 1;
  }

  lemma {:induction false} ShrSum(w: nat, i: nat, j: nat)
    ensures Shr(w, i + j) == Shr(Shr(w, i), j)
  {
    if i > 0 { ShrSum(w / 2, i - 1, j); }
  }

  lemma ShrChunk(w: nat, h: nat)
    requires h == 8 || h == 16
    ensures Shr(w, h) == w / Pow2(h)
  {
    SmallPowers();
    hide Shr, Pow2;
    ShrEight(w);
    ShrEight(w / 256);
    ShrSum(w, 8, 8);
  }

  lemma ShrEight(w: nat)
    ensures Shr(w, 8) == w / 256
  {
    hide Shr;
    ShrFour(w);
    ShrFour(w / 16);
    ShrSum(w, 4, 4);
  }

  lemma ShrFour(w: nat)
    ensures Shr(w, 4) == w / 16
  {
    hide Shr;
    ShrTwo(w);
    ShrTwo(w / 4);
    ShrSum(w, 2, 2);
  }

  lemma ShrTwo(w: nat)
    ensures Shr(w, 2) == w / 4
  {
    assert Shr(w, 2) == Shr(w / 2, 1) == Shr(w / 2 / 2, 0);
  }

  lemma ChunkStep(v: nat, word: Word32, h: nat, size: nat, j: nat)
    requires (h == 8 || h == 16) && size == Pow2(h) && h * (j + 1) <= 32
    ensures v * Pow2(32 - h * j) + Shr(word, h * j)
         == (v * Pow2(32 - h * (j + 1)) + Shr(word, h * (j + 1))) * Pow2(h) + Shr(word, h * j) % size
  {
    hide Pow2, Shr;
    var s := Shr(word, h * j);
    assert h * j + h == h * (j + 1);
    ShrSum(word, h * j, h);
    ShrChunk(s, h);
    Pow2Sum(32 - h * (j + 1), h);
    ChunkNumbers(v, Pow2(32 - h * (j + 1)), s, size);
  }

  lemma ChunkNumbers(v: nat, p: nat, s: nat, size: nat)
    requires size > 0
    ensures v * (p * size) + s == (v * p + s / size) * size + s % size
  {
    assert s == (s / size) * size + s % size;
    assert (v * p + s / size) * size == (v * p) * size + (s / size) * size;
    Associate(v, p, size);
  }

  lemma ChunkWordEnd(blob: Blob, i: nat)
    requires i < |blob|
    ensures Value(blob[..i]) * Pow2(32 - 0) + Shr(blob[i], 0) == Value(blob[..i + 1])
  {
    SmallPowers();
    assert blob[..i + 1][..i] == blob[..i];
  }

  lemma HornerChunk(f: Field, c: nat, x: nat, h: nat, a: nat)
    requires f.Valid() && a < f.Size() && x < Pow2(h)
    ensures Times(f, c * Pow2(h) + x, a) == Xor(Shifted(f, Times(f, c, a), h), Times(f, x, a))
  {
    hide Times, Xor, Pow2, Shifted;
    XorDisjoint(c, x, h);
    TimesLinearLeft(f, c * Pow2(h), x, a);
    TimesPower(f, c, h, a);
  }

  lemma PowerStart(f: Field, a: nat, v: nat)
    requires f.Valid() && 1 < f.Size() && a < f.Size() && v < f.Size()
    ensures Times(f, Power(f, a, 0), v) == v
  {
    hide Times;
    TimesBit(f, 1, v);
  }

  lemma PowerMore(f: Field, a: nat, p: nat, q: nat, v: nat)
    requires f.Valid() && 1 < f.Size() && a < f.Size() && v < f.Size()
    ensures Times(f, Power(f, a, p), Times(f, Power(f, a, q), v)) == Times(f, Power(f, a, q + p), v)
  {
    hide Times, Power;
    TimesAssoc(f, Power(f, a, p), Power(f, a, q), v);
    PowerSum(f, a, p, q);
  }
}
