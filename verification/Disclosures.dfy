/**
 * What the sent parities tell: any change of the key that none of them notices leaves the parity of every block and
 * every bit known to be correct as it is.
 */
module Disclosures {
  import opened Parities
  import opened ParityBlocks
  import opened CascadeStates

  /** A change of the key that the parity of this block does not notice. */
  ghost predicate Keeps(e: seq<bool>, q: Question) {
    |q.inv| == |e| && q.block.End() <= |e| && (forall x :: 0 <= x < |e| ==> q.inv[x] < |e|) ==>
      !Par(Permuted(e, q.inv), q.block.offset, q.block.End())
  }

  ghost predicate Unnoticed(e: seq<bool>, sent: seq<Question>) {
    forall t :: 0 <= t < |sent| ==> Keeps(e, sent[t])
  }

  ghost predicate KeepsBlocks(e: seq<bool>, c: Checker) {
    forall b :: b in c.blocks ==> Keeps(e, Question(c.inv, b))
  }

  ghost predicate KeepsBits(e: seq<bool>, ps: set<nat>) {
    forall p :: p in ps && p < |e| ==> !e[p]
  }

  ghost predicate KeepsAll(e: seq<bool>, s: State) {
    KeepsBits(e, s.correct) && forall i :: 0 <= i < |s.checkers| ==> KeepsBlocks(e, s.checkers[i])
  }

  /** The sent parities determine those of all blocks, and the bits known to be correct. */
  ghost predicate Determined(s: State) {
    forall e: seq<bool> :: |e| == |s.key| && Unnoticed(e, s.sent) ==> KeepsAll(e, s)
  }

  /** The sent parities determine these bits. */
  ghost predicate BitsTold(s: State, ps: set<nat>) {
    forall e: seq<bool> :: |e| == |s.key| && Unnoticed(e, s.sent) ==> KeepsBits(e, ps)
  }

  /** The sent parities determine that of this block. */
  ghost predicate BlockTold(s: State, inv: seq<nat>, b: Block) {
    forall e: seq<bool> :: |e| == |s.key| && Unnoticed(e, s.sent) ==> Keeps(e, Question(inv, b))
  }

  lemma NothingDetermined(s: State)
    requires s.checkers == [] && s.correct == {}
    ensures Determined(s)
  {}

  lemma UnnoticedBefore(e: seq<bool>, sent: seq<Question>, told: seq<Question>)
    requires Unnoticed(e, sent + told)
    ensures Unnoticed(e, sent) && Unnoticed(e, told)
  {
    hide Keeps;
    assert forall t :: 0 <= t < |sent| ==> (sent + told)[t] == sent[t];
    assert forall t :: 0 <= t < |told| ==> (sent + told)[|sent| + t] == told[t];
  }

  lemma SentDetermined(s: State, told: seq<Question>)
    requires Determined(s)
    ensures Determined(Sent(s, told))
  {
    hide Unnoticed, KeepsBlocks, KeepsBits;
    forall e: seq<bool> | |e| == |s.key| && Unnoticed(e, s.sent + told)
      ensures KeepsAll(e, Sent(s, told))
    {
      UnnoticedBefore(e, s.sent, told);
      assert KeepsAll(e, s);
    }
  }

  lemma NotedDetermined(s: State, ps: set<nat>)
    requires Determined(s) && AllShaped(s) && Within(ps, |s.key|) && BitsTold(s, ps)
    ensures Determined(Noted(s, ps))
  {
    hide Unnoticed, Keeps;
    forall e: seq<bool> | |e| == |s.key| && Unnoticed(e, s.sent)
      ensures KeepsAll(e, Noted(s, ps))
    {
      assert KeepsAll(e, s) && KeepsBits(e, ps);
      forall i | 0 <= i < |s.checkers|
        ensures KeepsBlocks(e, Marked(s.checkers[i], ps))
      {
        assert KeepsBlocks(e, s.checkers[i]);
      }
    }
  }

  /** The flag of a block does not matter. */
  lemma KeepsToggled(e: seq<bool>, inv: seq<nat>, b: Block, c: Block)
    requires Keeps(e, Question(inv, b)) && c.offset == b.offset && c.size == b.size
    ensures Keeps(e, Question(inv, c))
  {}

  /** With the parity of a block and of one half comes that of the other half. */
  lemma KeepsHalves(e: seq<bool>, inv: seq<nat>, w: Block, h: Block)
    requires Keeps(e, Question(inv, w)) && Keeps(e, Question(inv, h)) && w.size > 1 && w.End() <= |e|
    requires h == w.FirstHalf(h.diff) || h == w.SecondHalf(h.diff)
    ensures forall d: bool :: Keeps(e, Question(inv, w.FirstHalf(d))) && Keeps(e, Question(inv, w.SecondHalf(d)))
  {
    hide Par;
    if |inv| == |e| && forall x :: 0 <= x < |e| ==> inv[x] < |e| {
      ParSplit(Permuted(e, inv), w.offset, w.FirstHalf(true).End(), w.End());
    }
  }

  lemma KeepsSingle(e: seq<bool>, inv: seq<nat>, b: Block)
    requires Keeps(e, Question(inv, b)) && b.size == 1 && b.End() <= |e| == |inv|
    requires forall x :: 0 <= x < |e| ==> inv[x] < |e|
    ensures !e[inv[b.offset]]
  {
    assert Par(Permuted(e, inv), b.offset, b.offset + 1) == Permuted(e, inv)[b.offset];
  }

  /** A told single bit is told. */
  lemma SingleTold(s: State, perm: seq<nat>, inv: seq<nat>, b: Block)
    requires Inverses(perm, inv, |s.key|) && BlockTold(s, inv, b) && b.size == 1 && b.End() <= |s.key|
    ensures BitsTold(s, {inv[b.offset]})
  {
    hide Unnoticed, Keeps;
    forall e: seq<bool> | |e| == |s.key| && Unnoticed(e, s.sent)
      ensures KeepsBits(e, {inv[b.offset]})
    {
      KeepsSingle(e, inv, b);
    }
  }

  lemma BlocksTold(s: State, i: nat, b: Block)
    requires Determined(s) && i < |s.checkers| && b in s.checkers[i].blocks
    ensures BlockTold(s, s.checkers[i].inv, b)
  {
    hide Unnoticed, Keeps;
    forall e: seq<bool> | |e| == |s.key| && Unnoticed(e, s.sent)
      ensures Keeps(e, Question(s.checkers[i].inv, b))
    {
      assert KeepsAll(e, s) && KeepsBlocks(e, s.checkers[i]);
    }
  }

  lemma HalvesTold(s: State, inv: seq<nat>, w: Block, h: Block)
    requires BlockTold(s, inv, w) && BlockTold(s, inv, h) && w.size > 1 && w.End() <= |s.key|
    requires h == w.FirstHalf(h.diff) || h == w.SecondHalf(h.diff)
    ensures forall d: bool :: BlockTold(s, inv, w.FirstHalf(d)) && BlockTold(s, inv, w.SecondHalf(d))
  {
    hide Unnoticed, Keeps;
    forall d: bool, e: seq<bool> | |e| == |s.key| && Unnoticed(e, s.sent)
      ensures Keeps(e, Question(inv, w.FirstHalf(d))) && Keeps(e, Question(inv, w.SecondHalf(d)))
    {
      KeepsHalves(e, inv, w, h);
    }
  }

  lemma SplitDetermined(s: State, i: nat, w: Block, first: bool)
    requires Determined(s) && i < |s.checkers|
    requires BlockTold(s, s.checkers[i].inv, w.FirstHalf(first))
    requires BlockTold(s, s.checkers[i].inv, w.SecondHalf(!first))
    ensures Determined(Split(s, i, w, first))
  {
    hide Unnoticed, Keeps;
    var t := Split(s, i, w, first);
    forall e: seq<bool> | |e| == |s.key| && Unnoticed(e, s.sent)
      ensures KeepsAll(e, t)
    {
      assert KeepsAll(e, s);
      forall j | 0 <= j < |t.checkers|
        ensures KeepsBlocks(e, t.checkers[j])
      {
        assert KeepsBlocks(e, s.checkers[j]);
      }
    }
  }

  lemma AddedDetermined(s: State, c: Checker)
    requires Determined(s) && forall b :: b in c.blocks ==> BlockTold(s, c.inv, b)
    ensures Determined(Added(s, c))
  {
    hide Unnoticed, Keeps;
    var t := Added(s, c);
    forall e: seq<bool> | |e| == |s.key| && Unnoticed(e, s.sent)
      ensures KeepsAll(e, t)
    {
      assert KeepsAll(e, s);
      forall j | 0 <= j < |t.checkers|
        ensures KeepsBlocks(e, t.checkers[j])
      {
        if j < |s.checkers| {
          assert KeepsBlocks(e, s.checkers[j]);
        } else {
          forall b | b in c.blocks
            ensures Keeps(e, Question(c.inv, b))
          {
            assert BlockTold(s, c.inv, b);
          }
        }
      }
    }
  }

  /** Inverting the flag of a block in every checker changes nothing. */
  lemma ChangeDetermined(s: State, p: nat)
    requires Determined(s) && AllGood(s) && p < |s.key|
    ensures Determined(RemoteChange(s, p))
    ensures BitsTold(s, {p}) ==> BitsTold(RemoteChange(s, p), {p})
  {
    hide Unnoticed, Keeps, Tiles, OddOf;
    var t := RemoteChange(s, p);
    forall e: seq<bool> | |e| == |s.key| && Unnoticed(e, s.sent)
      ensures KeepsAll(e, t)
    {
      assert KeepsAll(e, s);
      forall j | 0 <= j < |t.checkers|
        ensures KeepsBlocks(e, t.checkers[j])
      {
        var c := s.checkers[j];
        assert KeepsBlocks(e, c) && Good(c, |s.key|);
        var around := Around(c.blocks, |s.key|, c.perm[p]);
        KeepsToggled(e, c.inv, around, around.Toggled());
      }
    }
  }

  /** Correcting the bit of a single block changes nothing in what is determined. */
  lemma FixDetermined(a: State, i: nat, w: Block)
    requires Determined(a) && AllGood(a) && i < |a.checkers| && w in a.checkers[i].blocks && w.size == 1
    requires w.End() <= |a.key| && Inverses(a.checkers[i].perm, a.checkers[i].inv, |a.key|)
    ensures Determined(FixedAlice(a, a.checkers[i].inv[w.offset]))
  {
    hide Determined, BitsTold, BlockTold, Good;
    var p := a.checkers[i].inv[w.offset];
    BlocksTold(a, i, w);
    SingleTold(a, a.checkers[i].perm, a.checkers[i].inv, w);
    ChangeDetermined(a, p);
    ChangedShaped(a, p);
    NotedDetermined(RemoteChange(a, p), {p});
  }

  /** With the parity of every block of one checker comes that of the whole key, in any order. */
  lemma WholeKept(e: seq<bool>, s: State, perm: seq<nat>, inv: seq<nat>)
    requires |e| == |s.key| && KeepsAll(e, s) && AllGood(s) && s.checkers != [] && Inverses(perm, inv, |e|)
    ensures !Par(Permuted(e, inv), 0, |e|)
  {
    hide Par, Weight;
    var c := s.checkers[0];
    assert KeepsBlocks(e, c) && Good(c, |e|);
    var d := Permuted(e, c.inv);
    forall b | b in c.blocks
      ensures !Par(d, b.offset, b.End())
    {
      assert Keeps(e, Question(c.inv, b));
    }
    if |d| > 0 { FirstBlock(c.blocks, |d|); }
    AllEven(c.blocks, d, 0);
    WholeParity(e, c.perm, c.inv);
    WholeParity(e, perm, inv);
  }

  /** With a bit known to be correct comes its place in every checker. */
  lemma KnownKept(e: seq<bool>, c: Checker, correct: set<nat>, q: nat)
    requires KeepsBits(e, correct) && Shaped(c, |e|) && Known(c, correct, |e|) && q in c.correct
    ensures q < |e| && !Permuted(e, c.inv)[q]
  {}
}
