/** The objects of one party: the frame with the key, and the parity checkers that it notifies. */
module CascadeFrame {
  import opened Parities
  import opened ParityBlocks
  import opened CascadeStates

  /** The last block that does not start behind q, as the decremented upper bound finds it. */
  predicate LastUpTo(blocks: set<Block>, q: nat, b: Block) {
    b in blocks && b.offset <= q && forall c :: c in blocks && c.offset <= q ==> c.offset <= b.offset
  }

  lemma AroundIsLast(blocks: set<Block>, n: nat, q: nat)
    requires Tiles(blocks, n) && q < n
    ensures LastUpTo(blocks, q, Around(blocks, n, q))
    ensures forall b :: LastUpTo(blocks, q, b) ==> b == Around(blocks, n, q)
  {
    var a := Around(blocks, n, q);
    forall c | c in blocks && c.offset <= q
      ensures c.offset <= a.offset
    {
      if c.offset > a.offset { assert a.Covers(c.offset) && c.Covers(c.offset); }
    }
    forall b | LastUpTo(blocks, q, b)
      ensures b == a
    {
      assert a.Covers(a.offset) && b.Covers(a.offset);
    }
  }

  /** Odd blocks are found by size and offset alone. */
  function Erase(odd: set<Block>, b: Block): set<Block> {
    set c | c in odd && !(c.size == b.size && c.offset == b.offset)
  }

  lemma EraseIs(blocks: set<Block>, n: nat, b: Block, key: Block)
    requires Tiles(blocks, n) && b in blocks && b.diff && key.size == b.size && key.offset == b.offset
    ensures Erase(OddOf(blocks), key) == OddOf(blocks) - {b}
  {
    forall c | c in OddOf(blocks)
      ensures c.size == b.size && c.offset == b.offset <==> c == b
    {
      assert b.Covers(b.offset);
      assert c.offset == b.offset ==> c.Covers(b.offset);
    }
  }

  /** The parity of a block of the own key, from the running sums and the changes since. */
  function OwnParity(sums: seq<bool>, changed: set<nat>, b: Block): bool
    requires b.End() < |sums|
  {
    (sums[b.End()] != sums[b.offset]) != (CountIn(changed, b.offset, b.End()) % 2 != 0)
  }

  /** The number of marked blocks in front of block j. */
  function Rank(marked: seq<Block>, j: nat): (r: nat)
    requires j <= |marked|
    ensures r <= j
  {
    if j == 0 then 0 else Rank(marked, j - 1) + if marked[j - 1].diff then 1 else 0
  }

  lemma {:induction false} RankMonotone(marked: seq<Block>, i: nat, j: nat)
    requires i <= j <= |marked|
    ensures Rank(marked, i) <= Rank(marked, j)
  {
    if i < j { RankMonotone(marked, i, j - 1); }
  }

  /** How many parities travel: with an even total the last one can be left out. */
  function ExchangeCount(marked: seq<Block>, even: bool): nat {
    var r := Rank(marked, |marked|);
    if r > 0 && even then r - 1 else r
  }

  /** The marked ones among the first j blocks. */
  ghost function Chosen(marked: seq<Block>, j: nat): (s: seq<Block>)
    requires j <= |marked|
    ensures |s| == Rank(marked, j)
  {
    if j == 0 then [] else Chosen(marked, j - 1) + if marked[j - 1].diff then [marked[j - 1]] else []
  }

  lemma {:induction false} ChosenPrefix(marked: seq<Block>, i: nat, j: nat)
    requires i <= j <= |marked|
    ensures Chosen(marked, i) <= Chosen(marked, j)
  {
    if i < j { ChosenPrefix(marked, i, j - 1); }
  }

  /** A marked block is chosen, at its rank. */
  lemma ChosenAt(marked: seq<Block>, j: nat)
    requires j < |marked| && marked[j].diff
    ensures Rank(marked, j) < Rank(marked, |marked|) && Chosen(marked, |marked|)[Rank(marked, j)] == marked[j]
  {
    ChosenPrefix(marked, j + 1, |marked|);
  }

  ghost function Questions(inv: seq<nat>, blocks: seq<Block>): (told: seq<Question>)
    ensures |told| == |blocks|
  {
    seq(|blocks|, t requires 0 <= t < |blocks| => Question(inv, blocks[t]))
  }

  /** The parities that one exchange about these blocks sends. */
  ghost function Told(inv: seq<nat>, marked: seq<Block>, even: bool): (told: seq<Question>)
    ensures |told| == ExchangeCount(marked, even)
  {
    Questions(inv, Chosen(marked, |marked|)[..ExchangeCount(marked, even)])
  }

  function Mark(b: Block, correct: set<nat>): Block {
    b.(diff := CountIn(correct, b.offset, b.End()) != b.size)
  }

  /** The difference of block j from the exchanged ones; an omitted one is the sum of all of them. */
  function Resolved(marked: seq<Block>, ex: seq<bool>, j: nat): bool
    requires j < |marked|
  {
    if !marked[j].diff then false
    else if Rank(marked, j) < |ex| then ex[Rank(marked, j)]
    else Par(ex, 0, |ex|)
  }

  /** The single bits among the first j blocks that turn out to be correct. */
  ghost function FoundCorrect(res: seq<Block>, marked: seq<Block>, inv: seq<nat>, correct: set<nat>, j: nat): set<nat>
    requires j <= |res| && j <= |marked| && forall t :: 0 <= t < j ==> marked[t].offset < |inv|
  {
    set t | 0 <= t < j && marked[t].diff && !res[t].diff && marked[t].size == 1 && marked[t].offset !in correct
      :: inv[marked[t].offset]
  }

  /** The first half is odd when it was compared and differs, or when the other was compared and does not. */
  function FirstIsOdd(w: Block, answer: Block): bool {
    (answer.offset == w.SecondHalf(true).offset) != answer.diff
  }

  /** A single bit in the even half is correct. */
  ghost function FoundHalf(c: Checker, w: Block, first: bool): set<nat>
    requires w.End() <= |c.inv| && w.size > 1
  {
    var e := EvenHalf(w, first);
    if e.size == 1 && e.offset !in c.correct then {c.inv[e.offset]} else {}
  }

  lemma NothingChosen(inv: seq<nat>, marked: seq<Block>)
    ensures Questions(inv, Chosen(marked, 0)) == []
  {}

  lemma ChosenNext(inv: seq<nat>, marked: seq<Block>, j: nat)
    requires j < |marked|
    ensures Questions(inv, Chosen(marked, j + 1))
         == Questions(inv, Chosen(marked, j)) + if marked[j].diff then [Question(inv, marked[j])] else []
  {}

  class ParityChecker {
    const perm: seq<nat>
    const inv: seq<nat>
    const sums: seq<bool>
    var changed: set<nat>
    var correct: set<nat>
    var blocks: set<Block>
    var odd: set<Block>

    ghost function View(): Checker
      reads this
    {
      Checker(perm, inv, sums, changed, correct, blocks, odd)
    }

    /** The running sums of the permuted key; no blocks yet. */
    constructor (key: seq<bool>, correctBits: set<nat>, perm: seq<nat>, inv: seq<nat>)
      requires Inverses(perm, inv, |key|) && Within(correctBits, |key|)
      ensures this.perm == perm && this.inv == inv && blocks == {} && odd == {} && changed == {}
      ensures Shaped(View(), |key|) && Faithful(View(), key, {}) && correct == Images(View(), correctBits)
    {
      var s: seq<bool> := [false];
      for i := 0 to |key|
        invariant |s| == i + 1
        invariant forall q :: 0 <= q < i ==> s[q + 1] == (s[q] != key[inv[q]])
      {
        s := s + [s[i] != key[inv[i]]];
      }
      this.perm, this.inv, sums := perm, inv, s;
      changed, blocks, odd := {}, {}, {};
      correct := set p | p in correctBits :: perm[p];
    }

    /** The blocks of a pass with their differences, and among them the odd ones. */
    method InsertBlocks(res: seq<Block>)
      requires blocks == {} && odd == {}
      modifies this
      ensures var all := set b | b in res; View() == old(View()).(blocks := all, odd := OddOf(all))
    {
      for i := 0 to |res|
        invariant blocks == (set b | b in res[..i]) && odd == OddOf(blocks)
        invariant changed == old(changed) && correct == old(correct)
      {
        assert res[..i + 1] == res[..i] + [res[i]];
        blocks := blocks + {res[i]};
        if res[i].diff { odd := odd + {res[i]}; }
      }
      assert res[..|res|] == res;
    }

    method NotifyBitChangeRemote(pos: nat, ghost n: nat)
      requires Good(View(), n) && pos < n
      modifies this
      ensures View() == Remote(old(View()), n, pos)
    {
      var q := perm[pos];
      AroundIsLast(blocks, n, q);
      var it :| it in blocks && LastUpTo(blocks, q, it);
      if q < it.offset || q >= it.End() { return; }
      ToggledOdd(blocks, n, q);
      var turned := Block(it.offset, it.size, !it.diff);
      if !turned.diff { EraseIs(blocks, n, it, turned); }
      blocks := blocks - {it} + {turned};
      odd := if turned.diff then odd + {turned} else Erase(odd, turned);
    }

    method NotifyBitChangeLocal(pos: nat, ghost n: nat)
      requires Good(View(), n) && pos < n
      modifies this
      ensures View() == Local(old(View()), n, pos)
    {
      NotifyBitChangeRemote(pos, n);
      changed := changed + {perm[pos]};
    }

    method NotifyCorrectBit(pos: nat)
      requires pos < |perm|
      modifies this
      ensures View() == Marked(old(View()), {pos})
    {
      correct := correct + {perm[pos]};
    }

    /** The surely correct bits of a stretch, or nothing outside the key. */
    function CountCorrectBitsInBlock(offset: nat, size: nat): (count: nat)
      reads this
      ensures offset + size < |sums| ==> count == CountIn(correct, offset, offset + size) <= size
      ensures offset + size < |sums| ==> (count == size <==> forall q :: offset <= q < offset + size ==> q in correct)
      ensures offset + size >= |sums| ==> count == 0
    {
      if offset + size + 1 > |sums| then 0
      else
        CountFull(correct, offset, offset + size);
        CountIn(correct, offset, offset + size)
    }

    /** Mark the blocks that are not known to be correct; a block outside the key fails. */
    method MarkBlocks(n: nat, asked: seq<Block>) returns (ok: bool, marked: seq<Block>)
      requires |sums| == n + 1
      ensures ok <==> forall j :: 0 <= j < |asked| ==> asked[j].End() <= n
      ensures ok ==> |marked| == |asked| && forall j :: 0 <= j < |asked| ==>
        marked[j] == Mark(asked[j], correct) && marked[j].End() < |sums|
    {
      hide CountIn;
      marked := [];
      for j := 0 to |asked|
        invariant |marked| == j
        invariant forall t :: 0 <= t < j ==> asked[t].End() <= n && marked[t] == Mark(asked[t], correct)
        invariant forall t :: 0 <= t < j ==> marked[t].End() < |sums|
      {
        if asked[j].End() > n { return false, marked; }
        var count := CountCorrectBitsInBlock(asked[j].offset, asked[j].size);
        marked := marked + [asked[j].(diff := count != asked[j].size)];
      }
      ok := true;
    }

    /** First half of the parity exchange: mark the blocks that need it and compute the own parities. */
    method SendParities(frame: Frame, asked: seq<Block>, even: bool)
      returns (ok: bool, marked: seq<Block>, own: seq<bool>)
      requires |sums| == |frame.key| + 1
      modifies frame`transmitted, frame`sent
      ensures ok <==> forall j :: 0 <= j < |asked| ==> asked[j].End() <= |frame.key|
      ensures !ok ==> frame.transmitted == old(frame.transmitted) && frame.sent == old(frame.sent)
      ensures ok ==> |marked| == |asked| && forall j :: 0 <= j < |asked| ==>
        marked[j] == Mark(asked[j], correct) && marked[j].End() < |sums|
      ensures ok ==> |own| == ExchangeCount(marked, even) && frame.transmitted == old(frame.transmitted) + |own|
      ensures ok ==> frame.sent == old(frame.sent) + Told(inv, marked, even)
      ensures ok ==> forall j :: 0 <= j < |marked| && marked[j].diff && Rank(marked, j) < |own| ==>
        own[Rank(marked, j)] == OwnParity(sums, changed, marked[j])
    {
      hide CountIn, OwnParity, Chosen, Mark;
      own := [];
      ok, marked := MarkBlocks(|frame.key|, asked);
      if !ok { return; }
      var exchange := ExchangeCount(marked, even);
      var j := 0;
      NothingChosen(inv, marked);
      while j < |marked| && |own| < exchange
        invariant j <= |marked| && |own| == Rank(marked, j) <= exchange
        invariant frame.transmitted == old(frame.transmitted) + |own|
        invariant frame.sent == old(frame.sent) + Questions(inv, Chosen(marked, j))
        invariant forall t :: 0 <= t < j && marked[t].diff ==>
          Rank(marked, t) < |own| && own[Rank(marked, t)] == OwnParity(sums, changed, marked[t])
      {
        ChosenNext(inv, marked, j);
        if marked[j].diff {
          own := own + [OwnParity(sums, changed, marked[j])];
          frame.AddTransmittedParities(1, [Question(inv, marked[j])]);
        }
        j := j + 1;
      }
      forall t | j <= t < |marked|
        ensures Rank(marked, t) >= |own|
      {
        RankMonotone(marked, j, t);
      }
      ChosenPrefix(marked, j, |marked|);
      ok := true;
    }

    /** A single bit that turns out even is correct, unless that is known already. */
    method NoteSingle(frame: Frame, block: Block, ghost before: State, ghost was: Checker, ghost found: set<nat>)
      returns (ghost more: set<nat>)
      requires frame.Valid() && AllShaped(before) && |frame.checkers| == |before.checkers|
      requires Within(found, |before.key|) && frame.View() == Noted(before, found)
      requires Shaped(was, |before.key|) && perm == was.perm && inv == was.inv && block.offset < |before.key|
      requires this !in frame.checkers ==> View() == was
      requires forall i :: 0 <= i < |frame.checkers| && frame.checkers[i] == this ==> before.checkers[i] == was
      modifies frame.Repr()
      ensures frame.Valid() && frame.checkers == old(frame.checkers)
      ensures Within(more, |before.key|) && frame.View() == Noted(before, more)
      ensures this !in frame.checkers ==> View() == was
      ensures var single := !block.diff && block.size == 1 && block.offset !in was.correct;
        more == if single then found + {inv[block.offset]} else found
    {
      hide Marked, Noted, AllShaped, Images;
      CorrectSoFar(frame, before, was, found);
      NotedKeeps(before, found);
      more := found;
      if !block.diff && block.size == 1 && block.offset !in correct {
        NotedMore(before, found, {inv[block.offset]});
        frame.NotifyCorrectBit(inv[block.offset]);
        more := found + {inv[block.offset]};
      }
    }

    /** Second half: compare with the parities of the peer and write the findings back into the blocks. */
    method WriteBack(frame: Frame, marked: seq<Block>, own: seq<bool>, remote: seq<bool>)
      returns (ok: bool, res: seq<Block>, ghost found: set<nat>)
      requires frame.Valid() && AllShaped(frame.View()) && Shaped(View(), |frame.key|)
      requires forall j :: 0 <= j < |marked| ==> marked[j].offset < |frame.key|
      modifies frame.Repr()
      ensures ok <==> |own| == |remote|
      ensures frame.Valid() && frame.checkers == old(frame.checkers)
      ensures !ok ==> frame.View() == old(frame.View())
      ensures ok ==> |res| == |marked| && forall j :: 0 <= j < |res| ==>
        res[j] == marked[j].(diff := Resolved(marked, Xors(own, remote), j))
      ensures ok ==> found == FoundCorrect(res, marked, inv, old(correct), |marked|) && Within(found, |old(frame.key)|)
      ensures ok ==> frame.View() == Noted(old(frame.View()), found)
    {
      hide Par, Rank, Marked, Noted, AllShaped, Images;
      ok, res, found := false, [], {};
      if |own| != |remote| { return; }
      ghost var before, was := frame.View(), View();
      var ex := Xors(own, remote);
      var sum, j := false, 0;
      NotedNothing(before);
      RankStart(marked, ex);
      for t := 0 to |marked|
        invariant |res| == t && Progress(marked, ex, t, j, sum)
        invariant forall u :: 0 <= u < t ==> res[u] == marked[u].(diff := Resolved(marked, ex, u))
        invariant found == FoundCorrect(res, marked, inv, was.correct, t) && Within(found, |before.key|)
        invariant frame.Valid() && frame.checkers == old(frame.checkers) && frame.View() == Noted(before, found)
        invariant this !in frame.checkers ==> View() == was
      {
        var block := marked[t];
        Progresses(marked, ex, t, j, sum);
        ghost var wasFound := found;
        if block.diff {
          if j < |ex| {
            block := block.(diff := ex[j]);
            sum := sum != ex[j];
            j := j + 1;
          } else {
            block := block.(diff := sum);
          }
          found := NoteSingle(frame, block, before, was, found);
        }
        FoundNext(res, block, marked, inv, was.correct, found, wasFound);
        res := res + [block];
      }
      ok := true;
    }

    /** The half to compare: the second one when all of it is known to be correct, else the first. */
    function SelectHalf(w: Block): (half: Block)
      reads this
      ensures w.size > 1 && w.End() < |sums| ==> half == w.SecondHalf(false) || half == w.FirstHalf(false)
      ensures w.size > 1 && w.End() < |sums| ==>
        (half == w.SecondHalf(false) <==> forall q :: w.SecondHalf(false).Covers(q) ==> q in correct)
    {
      var second := w.SecondHalf(false);
      if CountCorrectBitsInBlock(second.offset, second.size) == second.size then second else w.FirstHalf(false)
    }

    /** From the answer about one half, tell which half is odd and put the two halves in place of the block. */
    method ReplaceByHalves(frame: Frame, ghost i: nat, w: Block, answer: Block)
      returns (next: Block, ghost found: set<nat>)
      requires frame.Valid() && i < |frame.checkers| && frame.checkers[i] == this && AllGood(frame.View())
      requires w in blocks && w.diff && w.size > 1 && w.End() <= |inv|
      modifies frame.Repr()
      ensures frame.Valid() && frame.checkers == old(frame.checkers)
      ensures var first := FirstIsOdd(w, answer);
        && next == OddHalf(w, first)
        && found == FoundHalf(old(View()), w, first) && Within(found, |old(frame.key)|)
        && AllShaped(old(frame.View()))
        && frame.View() == Split(Noted(old(frame.View()), found), i, w, first)
    {
      hide Noted, Halves, Erase, Marked, CountIn, FirstIsOdd;
      ghost var before := frame.View();
      assert Good(before.checkers[i], |frame.key|);
      var first := FirstIsOdd(w, answer);
      var b1, b2 := w.FirstHalf(first), w.SecondHalf(!first);
      found := {};
      NotedNothing(before);
      if !b1.diff && b1.size == 1 && b1.offset !in correct {
        found := {inv[b1.offset]};
        frame.NotifyCorrectBit(inv[b1.offset]);
      }
      if !b2.diff && b2.size == 1 && b2.offset !in correct {
        found := {inv[b2.offset]};
        frame.NotifyCorrectBit(inv[b2.offset]);
      }
      next := if b1.diff then b1 else b2;
      NotedKeeps(before, found);
      ReplaceInView(frame, before, found, i, w, first);
      odd := Erase(odd, w) + {next};
      blocks := Halves(blocks, w, first);
      assert frame.View().checkers == Split(Noted(before, found), i, w, first).checkers;
    }

    lemma ReplaceInView(frame: Frame, before: State, found: set<nat>, i: nat, w: Block, first: bool)
      requires AllShaped(before) && Within(found, |before.key|) && i < |before.checkers|
      requires Good(before.checkers[i], |before.key|)
      requires frame.View() == Noted(before, found) && i < |frame.checkers| && frame.checkers[i] == this
      requires w in before.checkers[i].blocks && w.diff && w.size > 1
      ensures View() == Noted(before, found).checkers[i]
      ensures OddOf(Halves(blocks, w, first)) == Erase(odd, w) + {OddHalf(w, first)}
    {
      hide OddOf, Halves, Erase;
      var c := before.checkers[i];
      assert frame.View().checkers[i] == View();
      HalvesOdd(c.blocks, |before.key|, w, first);
      EraseIs(c.blocks, |before.key|, w, w);
    }

    /** What this checker knows to be correct: what it knew, and the found bits if the frame notifies it. */
    lemma CorrectSoFar(frame: Frame, before: State, was: Checker, found: set<nat>)
      requires frame.Valid() && AllShaped(before) && |frame.checkers| == |before.checkers|
      requires Within(found, |before.key|) && Shaped(was, |before.key|)
      requires frame.View() == Noted(before, found)
      requires perm == was.perm && inv == was.inv && (this !in frame.checkers ==> View() == was)
      requires forall i :: 0 <= i < |frame.checkers| && frame.checkers[i] == this ==> before.checkers[i] == was
      ensures was.correct <= correct
      ensures forall q :: q in correct && q !in was.correct ==> q < |was.inv| && was.inv[q] in found
    {
      if this in frame.checkers {
        var i :| 0 <= i < |frame.checkers| && frame.checkers[i] == this;
        assert frame.View().checkers[i] == View();
      }
    }
  }

  /** The running index and sum after t blocks have been written back. */
  ghost predicate Progress(marked: seq<Block>, ex: seq<bool>, t: nat, j: nat, sum: bool) {
    && t <= |marked| && j <= |ex|
    && j == (if Rank(marked, t) <= |ex| then Rank(marked, t) else |ex|)
    && sum == Par(ex, 0, j)
  }

  lemma RankStart(marked: seq<Block>, ex: seq<bool>)
    ensures Progress(marked, ex, 0, 0, false)
  {}

  lemma Progresses(marked: seq<Block>, ex: seq<bool>, t: nat, j: nat, sum: bool)
    requires Progress(marked, ex, t, j, sum) && t < |marked|
    ensures !marked[t].diff ==> Progress(marked, ex, t + 1, j, sum)
    ensures marked[t].diff && j < |ex| ==> Rank(marked, t) == j && Progress(marked, ex, t + 1, j + 1, sum != ex[j])
    ensures marked[t].diff && j == |ex| ==> Rank(marked, t) >= |ex| && Progress(marked, ex, t + 1, j, sum)
    ensures marked[t].diff && j == |ex| ==> sum == Par(ex, 0, |ex|)
  {}

  /**
   * The frame of one party: the key bits, the checkers to notify, the bits known to be correct,
   * the bits that were corrected, and the number of parities sent.
   */
  class Frame {
    var key: seq<bool>
    var checkers: seq<ParityChecker>
    var correct: set<nat>
    var corrected: set<nat>
    var transmitted: nat
    ghost var sent: seq<Question>

    ghost function Repr(): set<object>
      reads this
    {
      {this} + set c: object | c in checkers
    }

    ghost predicate Valid()
      reads this
    {
      transmitted == |sent| && forall i, j :: 0 <= i < j < |checkers| ==> checkers[i] != checkers[j]
    }

    ghost function View(): State
      reads Repr()
    {
      State(key, seq(|checkers|, i requires 0 <= i < |checkers| reads this, Repr() => checkers[i].View()),
            correct, corrected, sent)
    }

    constructor (key: seq<bool>)
      ensures Valid() && fresh(Repr()) && View() == State(key, [], {}, {}, [])
    {
      this.key := key;
      checkers, correct, corrected, transmitted, sent := [], {}, {}, 0, [];
    }

    /** Count parities that are sent; told says which. */
    method AddTransmittedParities(n: nat, ghost told: seq<Question>)
      requires |told| == n
      modifies this`transmitted, this`sent
      ensures transmitted == old(transmitted) + n && sent == old(sent) + told
    {
      transmitted := transmitted + n;
      sent := sent + told;
    }

    method AddChecker(checker: ParityChecker)
      requires Valid() && checker !in checkers
      modifies this
      ensures Valid() && checkers == old(checkers) + [checker]
      ensures View() == Added(old(View()), checker.View())
    {
      checkers := checkers + [checker];
    }

    /** Change a bit to the given value; the checkers hear of it only when it was the other one. */
    method SetBit(pos: nat, bit: bool)
      requires Valid() && AllGood(View())
      modifies Repr()
      ensures Valid() && checkers == old(checkers)
      ensures View() == if pos < |old(key)| && old(key)[pos] != bit then Inverted(old(View()), pos) else old(View())
    {
      hide Good, Local;
      if pos >= |key| { return; }
      if key[pos] == bit { return; }
      ghost var was, n := View(), |key|;
      key := key[pos := bit];
      for i := 0 to |checkers|
        invariant checkers == old(checkers) && key == was.key[pos := bit]
        invariant correct == was.correct && corrected == was.corrected && sent == was.sent && transmitted == |sent|
        invariant forall j :: 0 <= j < i ==> checkers[j].View() == Local(was.checkers[j], n, pos)
        invariant forall j :: i <= j < |checkers| ==> checkers[j].View() == was.checkers[j]
      {
        checkers[i].NotifyBitChangeLocal(pos, n);
      }
    }

    method FlipBit(pos: nat)
      requires Valid() && AllGood(View())
      modifies Repr()
      ensures Valid() && checkers == old(checkers)
      ensures View() == if pos < |old(key)| then LocalChange(old(View()), pos) else old(View())
    {
      hide Good, Local;
      if pos >= |key| { return; }
      SetBit(pos, !key[pos]);
      corrected := corrected + {pos};
    }

    method NotifyBitChangeRemote(pos: nat)
      requires Valid() && AllGood(View())
      modifies Repr()
      ensures Valid() && checkers == old(checkers)
      ensures View() == if pos < |old(key)| then RemoteChange(old(View()), pos) else old(View())
    {
      hide Good, Remote;
      if pos >= |key| { return; }
      ghost var was, n := View(), |key|;
      corrected := corrected + {pos};
      for i := 0 to |checkers|
        invariant checkers == old(checkers) && key == was.key
        invariant correct == was.correct && corrected == was.corrected + {pos}
        invariant sent == was.sent && transmitted == |sent|
        invariant forall j :: 0 <= j < i ==> checkers[j].View() == Remote(was.checkers[j], n, pos)
        invariant forall j :: i <= j < |checkers| ==> checkers[j].View() == was.checkers[j]
      {
        checkers[i].NotifyBitChangeRemote(pos, n);
      }
    }

    method NotifyCorrectBit(pos: nat)
      requires Valid() && AllShaped(View())
      modifies Repr()
      ensures Valid() && checkers == old(checkers)
      ensures View() == if pos < |old(key)| then Noted(old(View()), {pos}) else old(View())
    {
      hide Marked;
      if pos >= |key| { return; }
      ghost var was := View();
      correct := correct + {pos};
      for i := 0 to |checkers|
        invariant checkers == old(checkers) && key == was.key
        invariant correct == was.correct + {pos} && corrected == was.corrected
        invariant sent == was.sent && transmitted == |sent|
        invariant forall j :: 0 <= j < i ==> checkers[j].View() == Marked(was.checkers[j], {pos})
        invariant forall j :: i <= j < |checkers| ==> checkers[j].View() == was.checkers[j]
      {
        assert Shaped(was.checkers[i], |key|);
        checkers[i].NotifyCorrectBit(pos);
      }
    }
  }

  lemma FoundNext(res: seq<Block>, block: Block, marked: seq<Block>, inv: seq<nat>, correct: set<nat>,
                  found: set<nat>, before: set<nat>)
    requires |res| < |marked| && forall t :: 0 <= t <= |res| ==> marked[t].offset < |inv|
    requires before == FoundCorrect(res, marked, inv, correct, |res|)
    requires
      var m := marked[|res|];
      var isFound := m.diff && !block.diff && m.size == 1 && m.offset !in correct;
      found == (if isFound then before + {inv[m.offset]} else before)
    ensures found == FoundCorrect(res + [block], marked, inv, correct, |res| + 1)
  {}
}
