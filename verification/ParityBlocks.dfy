/** The parity blocks of one checker: how they tile the frame, and what toggling and halving do to them. */
module ParityBlocks {
  import opened Parities

  datatype Block = Block(offset: nat, size: nat, diff: bool) {
    function End(): nat {
      offset + size
    }

    predicate Covers(q: nat) {
      offset <= q < End()
    }

    function Toggled(): Block {
      this.(diff := !diff)
    }

    function FirstHalf(d: bool): Block {
      Block(offset, (size + 1) / 2, d)
    }

    function SecondHalf(d: bool): Block {
      Block(offset + (size + 1) / 2, size - (size + 1) / 2, d)
    }
  }

  /** The half that is odd, and the one that is even, when the first is odd or not. */
  function OddHalf(b: Block, first: bool): Block {
    if first then b.FirstHalf(true) else b.SecondHalf(true)
  }

  function EvenHalf(b: Block, first: bool): Block {
    if first then b.SecondHalf(false) else b.FirstHalf(false)
  }

  ghost predicate Covered(blocks: set<Block>, q: nat) {
    exists b :: b in blocks && b.Covers(q)
  }

  ghost predicate Disjoint(blocks: set<Block>) {
    forall b, c, q: nat :: b in blocks && c in blocks && b.Covers(q) && c.Covers(q) ==> b == c
  }

  /** Every position below n is in exactly one block, and no block is empty or leaves the frame. */
  ghost predicate Tiles(blocks: set<Block>, n: nat) {
    && (forall b :: b in blocks ==> b.size >= 1 && b.End() <= n)
    && Disjoint(blocks)
    && (forall q: nat :: q < n ==> Covered(blocks, q))
  }

  function OddOf(blocks: set<Block>): set<Block> {
    set b | b in blocks && b.diff
  }

  /** The one block around a position. */
  ghost function Around(blocks: set<Block>, n: nat, q: nat): (b: Block)
    requires Tiles(blocks, n) && q < n
    ensures b in blocks && b.Covers(q)
  {
    assert Covered(blocks, q);
    var b :| b in blocks && b.Covers(q);
    b
  }

  lemma AroundIs(blocks: set<Block>, n: nat, q: nat, b: Block)
    requires Tiles(blocks, n) && q < n && b in blocks && b.Covers(q)
    ensures Around(blocks, n, q) == b
  {}

  /** The difference of the block around q is inverted. */
  ghost function ToggledAt(blocks: set<Block>, n: nat, q: nat): set<Block>
    requires Tiles(blocks, n) && q < n
  {
    var b := Around(blocks, n, q);
    blocks - {b} + {b.Toggled()}
  }

  lemma ToggledTiles(blocks: set<Block>, n: nat, q: nat)
    requires Tiles(blocks, n) && q < n
    ensures Tiles(ToggledAt(blocks, n, q), n)
  {
    var b := Around(blocks, n, q);
    var next := ToggledAt(blocks, n, q);
    forall x, y, p: nat | x in next && y in next && x.Covers(p) && y.Covers(p)
      ensures x == y
    {
      var x1, y1 := if x == b.Toggled() then b else x, if y == b.Toggled() then b else y;
      assert x1.Covers(p) && y1.Covers(p);
    }
    forall p: nat | p < n
      ensures Covered(next, p)
    {
      var c := Around(blocks, n, p);
      assert c == b ==> b.Toggled().Covers(p);
      assert c != b ==> c in next;
    }
  }

  /** The odd set after a toggle: the block enters it or leaves it. */
  lemma ToggledOdd(blocks: set<Block>, n: nat, q: nat)
    requires Tiles(blocks, n) && q < n
    ensures var b := Around(blocks, n, q);
      OddOf(ToggledAt(blocks, n, q)) == if b.diff then OddOf(blocks) - {b} else OddOf(blocks) + {b.Toggled()}
  {
    var b := Around(blocks, n, q);
    if b.diff {
      assert b.Toggled() !in OddOf(ToggledAt(blocks, n, q));
    } else {
      assert b !in OddOf(blocks);
    }
  }

  /** A block in two halves, of which exactly one is odd. */
  function Halves(blocks: set<Block>, b: Block, first: bool): set<Block> {
    blocks - {b} + {b.FirstHalf(first), b.SecondHalf(!first)}
  }

  lemma HalvesTile(blocks: set<Block>, n: nat, b: Block, first: bool)
    requires Tiles(blocks, n) && b in blocks && b.size > 1
    ensures Tiles(Halves(blocks, b, first), n)
  {
    var h1, h2 := b.FirstHalf(first), b.SecondHalf(!first);
    var next := Halves(blocks, b, first);
    forall x, y, p: nat | x in next && y in next && x.Covers(p) && y.Covers(p)
      ensures x == y
    {
      var x1, y1 := if x == h1 || x == h2 then b else x, if y == h1 || y == h2 then b else y;
      assert x1.Covers(p) && y1.Covers(p);
    }
    forall p: nat | p < n
      ensures Covered(next, p)
    {
      var c := Around(blocks, n, p);
      if c == b {
        assert h1.Covers(p) || h2.Covers(p);
      } else {
        assert c in next;
      }
    }
  }

  /** Neither half was a block before, so the odd set exchanges the block for its odd half. */
  lemma HalvesOdd(blocks: set<Block>, n: nat, b: Block, first: bool)
    requires Tiles(blocks, n) && b in blocks && b.diff && b.size > 1
    ensures OddHalf(b, first) !in blocks
    ensures OddOf(Halves(blocks, b, first))
         == OddOf(blocks) - {b} + {OddHalf(b, first)}
  {
    var h1, h2 := b.FirstHalf(first), b.SecondHalf(!first);
    assert b.Covers(h1.offset) && h1.Covers(h1.offset) && b.Covers(h2.offset) && h2.Covers(h2.offset);
  }

  ghost predicate Starts(blocks: set<Block>, x: nat) {
    exists b :: b in blocks && b.offset == x
  }

  /** Toggling and halving keep every start of a block. */
  lemma StartsKept(blocks: set<Block>, n: nat, x: nat)
    requires Tiles(blocks, n) && Starts(blocks, x)
    ensures forall q: nat :: q < n ==> Starts(ToggledAt(blocks, n, q), x)
    ensures forall b, first :: b in blocks && b.size > 1 ==> Starts(Halves(blocks, b, first), x)
  {
    var s :| s in blocks && s.offset == x;
    forall q: nat | q < n
      ensures Starts(ToggledAt(blocks, n, q), x)
    {
      assert s in ToggledAt(blocks, n, q) || s.Toggled() in ToggledAt(blocks, n, q);
    }
    forall b, first | b in blocks && b.size > 1
      ensures Starts(Halves(blocks, b, first), x)
    {
      assert s in Halves(blocks, b, first) || s.FirstHalf(first) in Halves(blocks, b, first);
    }
  }

  /** When every block has an even number of set bits, so has the frame from the start of any block. */
  lemma {:induction false} AllEven(blocks: set<Block>, d: seq<bool>, lo: nat)
    requires Tiles(blocks, |d|) && lo <= |d|
    requires forall b :: b in blocks ==> !Par(d, b.offset, b.End())
    requires lo < |d| ==> Starts(blocks, lo)
    ensures !Par(d, lo, |d|)
    decreases |d| - lo
  {
    if lo < |d| {
      var b :| b in blocks && b.offset == lo;
      if b.End() < |d| {
        var c := Around(blocks, |d|, b.End());
        if c.offset < b.End() {
          assert b.Covers(b.End() - 1) && c.Covers(b.End() - 1);
        }
        assert c.offset == b.End();
      }
      AllEven(blocks, d, b.End());
      ParSplit(d, lo, b.End(), |d|);
    }
  }

  lemma FirstBlock(blocks: set<Block>, n: nat)
    requires Tiles(blocks, n) && n > 0
    ensures Starts(blocks, 0)
  {
    assert Around(blocks, n, 0).offset == 0;
  }

  /** Blocks one behind the other, from the start of the frame to its end. */
  ghost predicate Contiguous(s: seq<Block>, n: nat) {
    && (forall j :: 0 <= j < |s| ==> s[j].size >= 1 && s[j].End() <= n)
    && (forall j :: 0 <= j < |s| - 1 ==> s[j + 1].offset == s[j].End())
    && (if s == [] then n == 0 else s[0].offset == 0 && s[|s| - 1].End() == n)
  }

  /** Where block j starts; the end of the frame behind the last one. */
  ghost function StartOf(s: seq<Block>, n: nat, j: nat): nat
    requires j <= |s|
  {
    if j < |s| then s[j].offset else n
  }

  lemma {:induction false} ContiguousOrder(s: seq<Block>, n: nat, i: nat, j: nat)
    requires Contiguous(s, n) && i < j < |s|
    ensures s[i].End() <= s[j].offset
    decreases j
  {
    if i + 1 < j {
      ContiguousOrder(s, n, i, j - 1);
      assert s[j - 1 + 1].offset == s[j - 1].End();
    }
  }

  lemma {:induction false} ContiguousFind(s: seq<Block>, n: nat, q: nat, j: nat) returns (i: nat)
    requires Contiguous(s, n) && j < |s| && q < s[j].End()
    ensures i < |s| && s[i].Covers(q)
    decreases j
  {
    i := j;
    if q < s[j].offset {
      assert s[j - 1 + 1].offset == s[j - 1].End();
      i := ContiguousFind(s, n, q, j - 1);
    }
  }

  lemma ContiguousTiles(s: seq<Block>, n: nat)
    requires Contiguous(s, n)
    ensures Tiles((set b | b in s), n)
  {
    var blocks := set b | b in s;
    forall x, y, q: nat | x in blocks && y in blocks && x.Covers(q) && y.Covers(q)
      ensures x == y
    {
      var i :| 0 <= i < |s| && s[i] == x;
      var j :| 0 <= j < |s| && s[j] == y;
      if i < j { ContiguousOrder(s, n, i, j); } else if j < i { ContiguousOrder(s, n, j, i); }
    }
    forall q: nat | q < n
      ensures Covered(blocks, q)
    {
      var i := ContiguousFind(s, n, q, |s| - 1);
      assert s[i] in blocks;
    }
  }
}
