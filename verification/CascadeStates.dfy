/** What a party of the Cascade protocol keeps, what its notifications do, and what ties the two parties together. */
module CascadeStates {
  import opened Parities
  import opened ParityBlocks

  datatype Checker = Checker(perm: seq<nat>, inv: seq<nat>, sums: seq<bool>, changed: set<nat>,
                             correct: set<nat>, blocks: set<Block>, odd: set<Block>)

  /** A parity that was sent: which block, in which order of the bits. */
  datatype Question = Question(inv: seq<nat>, block: Block)

  datatype State = State(key: seq<bool>, checkers: seq<Checker>, correct: set<nat>, corrected: set<nat>,
                         sent: seq<Question>)

  /** What the constructor fixes: the permutations and the size of the table of partial sums. */
  ghost predicate Shaped(c: Checker, n: nat) {
    Inverses(c.perm, c.inv, n) && |c.sums| == n + 1
  }

  ghost predicate Good(c: Checker, n: nat) {
    Shaped(c, n) && Tiles(c.blocks, n) && c.odd == OddOf(c.blocks)
  }

  ghost predicate AllGood(s: State) {
    forall i :: 0 <= i < |s.checkers| ==> Good(s.checkers[i], |s.key|)
  }

  /** The peer changed a bit: the block around it changes sides. */
  ghost function Remote(c: Checker, n: nat, p: nat): Checker
    requires Good(c, n) && p < n
  {
    var next := ToggledAt(c.blocks, n, c.perm[p]);
    c.(blocks := next, odd := OddOf(next))
  }

  ghost function Local(c: Checker, n: nat, p: nat): Checker
    requires Good(c, n) && p < n
  {
    Remote(c, n, p).(changed := c.changed + {c.perm[p]})
  }

  ghost function Images(c: Checker, ps: set<nat>): set<nat>
    requires forall p :: p in ps ==> p < |c.perm|
  {
    set p | p in ps :: c.perm[p]
  }

  ghost function Marked(c: Checker, ps: set<nat>): Checker
    requires forall p :: p in ps ==> p < |c.perm|
  {
    c.(correct := c.correct + Images(c, ps))
  }

  /** Alice's side of a correction: the key stays, the bit counts as corrected. */
  ghost function RemoteChange(s: State, p: nat): State
    requires AllGood(s) && p < |s.key|
  {
    s.(corrected := s.corrected + {p},
       checkers := seq(|s.checkers|, i requires 0 <= i < |s.checkers| => Remote(s.checkers[i], |s.key|, p)))
  }

  /** A bit of the own key is inverted and all checkers hear of it. */
  ghost function Inverted(s: State, p: nat): State
    requires AllGood(s) && p < |s.key|
  {
    s.(key := s.key[p := !s.key[p]],
       checkers := seq(|s.checkers|, i requires 0 <= i < |s.checkers| => Local(s.checkers[i], |s.key|, p)))
  }

  /** Bob's side of a correction. */
  ghost function LocalChange(s: State, p: nat): State
    requires AllGood(s) && p < |s.key|
  {
    Inverted(s, p).(corrected := s.corrected + {p})
  }

  ghost predicate Within(ps: set<nat>, n: nat) {
    forall p :: p in ps ==> p < n
  }

  ghost predicate AllShaped(s: State) {
    forall i :: 0 <= i < |s.checkers| ==> Shaped(s.checkers[i], |s.key|)
  }

  /** Bits found correct are noted in the frame and in all its checkers. */
  ghost function Noted(s: State, ps: set<nat>): State
    requires AllShaped(s) && Within(ps, |s.key|)
  {
    s.(correct := s.correct + ps,
       checkers := seq(|s.checkers|, i requires 0 <= i < |s.checkers| => Marked(s.checkers[i], ps)))
  }

  lemma NotedMore(s: State, ps: set<nat>, qs: set<nat>)
    requires AllShaped(s) && Within(ps, |s.key|) && Within(qs, |s.key|)
    ensures AllShaped(Noted(s, ps))
    ensures Noted(Noted(s, ps), qs) == Noted(s, ps + qs)
  {
    forall i | 0 <= i < |s.checkers|
      ensures Marked(Marked(s.checkers[i], ps), qs) == Marked(s.checkers[i], ps + qs)
    {
      assert Images(s.checkers[i], ps) + Images(s.checkers[i], qs) == Images(s.checkers[i], ps + qs);
    }
  }

  lemma NotedKeeps(s: State, ps: set<nat>)
    requires AllShaped(s) && Within(ps, |s.key|)
    ensures var t := Noted(s, ps); t.key == s.key && |t.checkers| == |s.checkers| && AllShaped(t)
  {}

  lemma NotedNothing(s: State)
    requires AllShaped(s)
    ensures Noted(s, {}) == s
  {
    forall i | 0 <= i < |s.checkers|
      ensures Marked(s.checkers[i], {}) == s.checkers[i]
    {
      assert Images(s.checkers[i], {}) == {};
    }
  }

  /** The positions on which the parties disagree. */
  ghost function Differences(a: State, b: State): seq<bool>
    requires |a.key| == |b.key|
  {
    Xors(a.key, b.key)
  }

  /** The running sums, with the changed bits applied, still give the parities of the permuted key. */
  ghost predicate Faithful(c: Checker, key: seq<bool>, corrected: set<nat>)
    requires Shaped(c, |key|)
  {
    && (forall q: nat :: q < |key| ==>
          c.sums[q + 1] == (c.sums[q] != (key[c.inv[q]] != (q in c.changed))))
    && (forall q :: q in c.changed ==> q < |key| && c.inv[q] in corrected)
  }

  /** Two checkers of the same pass: the same view of the blocks and of the correct bits. */
  ghost predicate Twins(c: Checker, d: Checker) {
    && c.perm == d.perm && c.inv == d.inv && c.correct == d.correct
    && c.blocks == d.blocks && c.odd == d.odd
  }

  /** Every flag tells the parity of the disagreements inside the block. */
  ghost predicate Truthful(blocks: set<Block>, d: seq<bool>) {
    forall b :: b in blocks ==> b.End() <= |d| && b.diff == Par(d, b.offset, b.End())
  }

  ghost predicate Known(c: Checker, correct: set<nat>, n: nat)
    requires Shaped(c, n)
  {
    forall q :: q in c.correct ==> q < n && c.inv[q] in correct
  }

  /** What holds between the two checkers of a pass even before they have blocks. */
  ghost predicate Attuned(c: Checker, d: Checker, a: State, b: State)
    requires |a.key| == |b.key|
  {
    && Shaped(c, |a.key|) && Shaped(d, |a.key|) && Twins(c, d)
    && Known(c, a.correct, |a.key|)
    && Faithful(c, a.key, a.corrected) && Faithful(d, b.key, b.corrected)
  }

  ghost predicate Linked(c: Checker, d: Checker, a: State, b: State)
    requires |a.key| == |b.key|
  {
    && Good(c, |a.key|) && Good(d, |a.key|)
    && Attuned(c, d, a, b)
    && Truthful(c.blocks, Permuted(Differences(a, b), c.inv))
  }

  /** The frames of the two parties agree, apart from the key bits and the running sums. */
  ghost predicate Aligned(a: State, b: State) {
    && |a.key| == |b.key| && |a.checkers| == |b.checkers|
    && a.correct == b.correct && a.corrected == b.corrected && a.sent == b.sent
    && (forall p :: p in a.correct ==> p < |a.key| && a.key[p] == b.key[p])
    && a.corrected <= a.correct
  }

  /** The invariant of the whole protocol. */
  ghost predicate Joint(a: State, b: State) {
    && Aligned(a, b)
    && forall i :: 0 <= i < |a.checkers| ==> Linked(a.checkers[i], b.checkers[i], a, b)
  }

  lemma JointGood(a: State, b: State)
    requires Joint(a, b)
    ensures Aligned(a, b) && AllGood(a) && AllGood(b) && AllShaped(a) && AllShaped(b)
  {}

  /** The parity a party sends for a block is the parity of its current key. */
  lemma {:induction false} SumsGiveParity(c: Checker, key: seq<bool>, corrected: set<nat>, lo: nat, hi: nat)
    requires Shaped(c, |key|) && Faithful(c, key, corrected) && lo <= hi <= |key|
    ensures ((c.sums[hi] != c.sums[lo]) != (CountIn(c.changed, lo, hi) % 2 != 0))
         == Par(Permuted(key, c.inv), lo, hi)
    decreases hi
  {
    hide CountIn, Inverses;
    if lo == hi {
      CountNone(c.changed, lo);
    } else {
      SumsGiveParity(c, key, corrected, lo, hi - 1);
      CountNext(c.changed, lo, hi - 1);
    }
  }

  /** A stretch all of whose bits are known to be correct has no disagreement. */
  lemma AllCorrectEven(c: Checker, a: State, b: State, lo: nat, hi: nat)
    requires Aligned(a, b) && Shaped(c, |a.key|) && Known(c, a.correct, |a.key|)
    requires lo <= hi <= |a.key| && CountIn(c.correct, lo, hi) == hi - lo
    ensures !Par(Permuted(Differences(a, b), c.inv), lo, hi)
  {
    CountFull(c.correct, lo, hi);
    ParFalse(Permuted(Differences(a, b), c.inv), lo, hi);
  }

  /** Bits on which the parties agree may be noted as correct. */
  lemma NotedJoint(a: State, b: State, ps: set<nat>)
    requires Joint(a, b) && Within(ps, |a.key|)
    requires forall p :: p in ps ==> a.key[p] == b.key[p]
    ensures AllShaped(a) && AllShaped(b) && Joint(Noted(a, ps), Noted(b, ps))
  {
    JointGood(a, b);
    var a1, b1 := Noted(a, ps), Noted(b, ps);
    forall i | 0 <= i < |a.checkers|
      ensures Linked(a1.checkers[i], b1.checkers[i], a1, b1)
    {
      assert Linked(a.checkers[i], b.checkers[i], a, b);
      MarkedLinked(a.checkers[i], b.checkers[i], a, b, ps);
    }
  }

  lemma MarkedLinked(c: Checker, d: Checker, a: State, b: State, ps: set<nat>)
    requires |a.key| == |b.key| && Linked(c, d, a, b) && Within(ps, |a.key|) && AllShaped(a) && AllShaped(b)
    ensures Linked(Marked(c, ps), Marked(d, ps), Noted(a, ps), Noted(b, ps))
  {
    hide Par, Tiles;
  }

  /** Alice notes a change, Bob makes it, both note the bit as correct. */
  ghost function FixedAlice(a: State, p: nat): State
    requires AllGood(a) && p < |a.key|
  {
    ChangedShaped(a, p);
    Noted(RemoteChange(a, p), {p})
  }

  ghost function FixedBob(b: State, p: nat): State
    requires AllGood(b) && p < |b.key|
  {
    ChangedShaped(b, p);
    Noted(LocalChange(b, p), {p})
  }

  lemma ChangedShaped(s: State, p: nat)
    requires AllGood(s) && p < |s.key|
    ensures AllShaped(RemoteChange(s, p)) && AllShaped(LocalChange(s, p))
  {
    hide Tiles, ToggledAt;
  }

  lemma DifferencesFixed(a: State, b: State, p: nat)
    requires |a.key| == |b.key| && p < |a.key| && a.key[p] != b.key[p]
    ensures Xors(a.key, b.key[p := !b.key[p]]) == Xors(a.key, b.key)[p := false]
    ensures Xors(a.key, b.key)[p]
    ensures Weight(Xors(a.key, b.key[p := !b.key[p]])) + 1 == Weight(Xors(a.key, b.key))
  {
    WeightClear(Xors(a.key, b.key), p);
  }

  /** Correcting a disagreement keeps the invariant, in every checker of every pass. */
  lemma FixJoint(a: State, b: State, p: nat)
    requires Joint(a, b) && p < |a.key| && a.key[p] != b.key[p]
    ensures AllGood(a) && AllGood(b)
    ensures Joint(FixedAlice(a, p), FixedBob(b, p))
    ensures Weight(Differences(FixedAlice(a, p), FixedBob(b, p))) + 1 == Weight(Differences(a, b))
  {
    hide Good, Weight, Linked;
    JointGood(a, b);
    ChangedShaped(a, p);
    ChangedShaped(b, p);
    DifferencesFixed(a, b, p);
    var a1, b1 := FixedAlice(a, p), FixedBob(b, p);
    forall i | 0 <= i < |a.checkers|
      ensures Linked(a1.checkers[i], b1.checkers[i], a1, b1)
    {
      FixLinked(a, b, p, i);
    }
  }

  lemma FixLinked(a: State, b: State, p: nat, i: nat)
    requires Joint(a, b) && p < |a.key| && a.key[p] != b.key[p] && i < |a.checkers|
    ensures AllGood(a) && AllGood(b)
    ensures var a1, b1 := FixedAlice(a, p), FixedBob(b, p); Linked(a1.checkers[i], b1.checkers[i], a1, b1)
  {
    hide Par, Tiles, ToggledAt, Truthful, OddOf, Faithful, Xors, Permuted;
    JointGood(a, b);
    ChangedShaped(a, p);
    ChangedShaped(b, p);
    var a1, b1 := FixedAlice(a, p), FixedBob(b, p);
    var c, d := a.checkers[i], b.checkers[i];
    assert Linked(c, d, a, b);
    ToggledTiles(c.blocks, |a.key|, c.perm[p]);
    FixTruthful(c, a, b, p);
    FixFaithful(c, d, a, b, p);
    KnownMore(c, a, p);
  }

  lemma KnownMore(c: Checker, a: State, p: nat)
    requires Shaped(c, |a.key|) && Known(c, a.correct, |a.key|) && p < |a.key|
    ensures Known(Marked(c, {p}), a.correct + {p}, |a.key|)
  {}

  lemma FixTruthful(c: Checker, a: State, b: State, p: nat)
    requires |a.key| == |b.key| && Good(c, |a.key|) && p < |a.key| && a.key[p] != b.key[p]
    requires Truthful(c.blocks, Permuted(Xors(a.key, b.key), c.inv))
    ensures Truthful(ToggledAt(c.blocks, |a.key|, c.perm[p]), Permuted(Xors(a.key, b.key[p := !b.key[p]]), c.inv))
  {
    hide Par;
    DifferencesFixed(a, b, p);
    PermutedFlip(Xors(a.key, b.key), c.perm, c.inv, p);
    ToggledTruthful(c.blocks, Permuted(Xors(a.key, b.key), c.inv), c.perm[p]);
  }

  lemma ToggledTruthful(blocks: set<Block>, d: seq<bool>, q: nat)
    requires Tiles(blocks, |d|) && q < |d| && Truthful(blocks, d)
    ensures Truthful(ToggledAt(blocks, |d|, q), d[q := !d[q]])
  {
    hide Par;
    var around := Around(blocks, |d|, q);
    forall b | b in blocks
      ensures Par(d[q := !d[q]], b.offset, b.End()) == (b.diff != (b == around))
    {
      ParFlip(d, q, b.offset, b.End());
      assert b.Covers(q) <==> b == around;
    }
  }

  lemma FixFaithful(c: Checker, d: Checker, a: State, b: State, p: nat)
    requires Aligned(a, b) && Good(c, |a.key|) && Good(d, |a.key|) && p < |a.key| && a.key[p] != b.key[p]
    requires Faithful(c, a.key, a.corrected) && Faithful(d, b.key, b.corrected)
    ensures Faithful(Marked(Remote(c, |a.key|, p), {p}), a.key, a.corrected + {p})
    ensures Faithful(Marked(Local(d, |a.key|, p), {p}), b.key[p := !b.key[p]], b.corrected + {p})
  {
    hide Tiles, ToggledAt;
    assert d.perm[p] !in d.changed;
  }

  /** A block of one checker is replaced by its halves. */
  ghost function SplitChecker(c: Checker, b: Block, first: bool): Checker {
    var next := Halves(c.blocks, b, first);
    c.(blocks := next, odd := OddOf(next))
  }

  ghost function Split(s: State, i: nat, b: Block, first: bool): State
    requires i < |s.checkers|
  {
    s.(checkers := s.checkers[i := SplitChecker(s.checkers[i], b, first)])
  }

  /** Halving an odd block keeps the invariant when the odd half is named rightly. */
  lemma SplitJoint(a: State, b: State, i: nat, block: Block, first: bool)
    requires Joint(a, b) && i < |a.checkers| && block in a.checkers[i].blocks && block.diff && block.size > 1
    requires block.End() <= |a.key|
    requires first == Par(Permuted(Differences(a, b), a.checkers[i].inv), block.offset, block.FirstHalf(true).End())
    ensures Joint(Split(a, i, block, first), Split(b, i, block, first))
  {
    hide Par, Tiles, OddOf, Xors, Permuted, Halves;
    var c, d := a.checkers[i], b.checkers[i];
    var a1, b1 := Split(a, i, block, first), Split(b, i, block, first);
    assert Linked(c, d, a, b);
    HalvesTile(c.blocks, |a.key|, block, first);
    HalvesTruthful(c.blocks, Permuted(Differences(a, b), c.inv), block, first);
    forall j | 0 <= j < |a.checkers|
      ensures Linked(a1.checkers[j], b1.checkers[j], a1, b1)
    {
      var c1, d1 := a1.checkers[j], b1.checkers[j];
      assert Linked(a.checkers[j], b.checkers[j], a, b);
      if j != i { LinkedFrame(c1, d1, a, b, a1, b1); }
    }
  }

  lemma HalvesTruthful(blocks: set<Block>, d: seq<bool>, b: Block, first: bool)
    requires Tiles(blocks, |d|) && Truthful(blocks, d) && b in blocks && b.diff && b.size > 1
    requires first == Par(d, b.offset, b.FirstHalf(true).End())
    ensures Truthful(Halves(blocks, b, first), d)
  {
    hide Par;
    ParSplit(d, b.offset, b.FirstHalf(true).End(), b.End());
  }

  ghost function Added(s: State, c: Checker): State {
    s.(checkers := s.checkers + [c])
  }

  lemma AddedJoint(a: State, b: State, c: Checker, d: Checker)
    requires Joint(a, b) && Linked(c, d, a, b)
    ensures Joint(Added(a, c), Added(b, d))
  {
    hide Good, Attuned, Truthful;
    var a1, b1 := Added(a, c), Added(b, d);
    forall j | 0 <= j < |a1.checkers|
      ensures Linked(a1.checkers[j], b1.checkers[j], a1, b1)
    {
      assert j < |a.checkers| ==> Linked(a.checkers[j], b.checkers[j], a, b);
      LinkedFrame(a1.checkers[j], b1.checkers[j], a, b, a1, b1);
    }
  }

  /** The link of two checkers does not depend on the other checkers nor on the counters. */
  lemma LinkedFrame(c: Checker, d: Checker, a: State, b: State, a1: State, b1: State)
    requires |a.key| == |b.key| && Linked(c, d, a, b)
    requires a1.key == a.key && b1.key == b.key && a1.correct == a.correct
    requires a1.corrected == a.corrected && b1.corrected == b.corrected
    ensures Linked(c, d, a1, b1)
  {
    hide Good, Par, Faithful;
  }

  ghost function Sent(s: State, told: seq<Question>): State {
    s.(sent := s.sent + told)
  }

  lemma SentJoint(a: State, b: State, told: seq<Question>)
    requires Joint(a, b)
    ensures Joint(Sent(a, told), Sent(b, told))
  {
    hide Good, Attuned, Truthful, Linked;
    forall j | 0 <= j < |a.checkers|
      ensures Linked(a.checkers[j], b.checkers[j], Sent(a, told), Sent(b, told))
    {
      LinkedFrame(a.checkers[j], b.checkers[j], a, b, Sent(a, told), Sent(b, told));
    }
  }

  /** With no odd block left in one checker, the parties disagree on an even number of bits. */
  lemma NoOddBlockEven(a: State, b: State, i: nat)
    requires Joint(a, b) && i < |a.checkers| && a.checkers[i].odd == {}
    ensures Weight(Differences(a, b)) % 2 == 0
  {
    hide Weight, Par;
    var c := a.checkers[i];
    var d := Permuted(Differences(a, b), c.inv);
    assert Linked(c, b.checkers[i], a, b);
    WholeParity(Differences(a, b), c.perm, c.inv);
    forall block | block in c.blocks
      ensures !Par(d, block.offset, block.End())
    {
      assert block !in OddOf(c.blocks);
    }
    if |d| > 0 { FirstBlock(c.blocks, |d|); }
    AllEven(c.blocks, d, 0);
  }
}
