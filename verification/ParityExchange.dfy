/** One round of messages: both parties compare the parities of the same blocks. */
module ParityExchange {
  import opened Parities
  import opened ParityBlocks
  import opened CascadeStates
  import opened CascadeFrame
  import opened Disclosures

  /** The two parties share no memory and satisfy the protocol invariant. */
  ghost predicate Ready(alice: Frame, bob: Frame)
    reads alice, alice.Repr(), bob, bob.Repr()
  {
    alice.Valid() && bob.Valid() && alice.Repr() !! bob.Repr() && Joint(alice.View(), bob.View())
    && Determined(alice.View())
  }

  /** The asked blocks, each marked when not all of its bits are known to be correct. */
  ghost function MarkAll(asked: seq<Block>, correct: set<nat>): seq<Block> {
    seq(|asked|, j requires 0 <= j < |asked| => Mark(asked[j], correct))
  }

  lemma MarksAll(asked: seq<Block>, correct: set<nat>, marked: seq<Block>)
    requires |marked| == |asked| && forall j :: 0 <= j < |asked| ==> marked[j] == Mark(asked[j], correct)
    ensures marked == MarkAll(asked, correct)
  {}

  ghost predicate TrueAnswers(marked: seq<Block>, ex: seq<bool>, d: seq<bool>, even: bool) {
    && |ex| == ExchangeCount(marked, even)
    && (forall j :: 0 <= j < |marked| ==> marked[j].End() <= |d|)
    && (forall j :: 0 <= j < |marked| && !marked[j].diff ==> !Par(d, marked[j].offset, marked[j].End()))
    && (forall j :: 0 <= j < |marked| && marked[j].diff && Rank(marked, j) < |ex| ==>
          ex[Rank(marked, j)] == Par(d, marked[j].offset, marked[j].End()))
    && (even ==> Contiguous(marked, |d|) && !Par(d, 0, |d|))
  }

  /** The exchanged parities in front of block j add up to the parity of everything in front of it. */
  lemma {:induction false} SumInFront(marked: seq<Block>, ex: seq<bool>, d: seq<bool>, j: nat)
    requires TrueAnswers(marked, ex, d, true) && j <= |marked| && Rank(marked, j) <= |ex|
    ensures StartOf(marked, |d|, j) <= |d|
    ensures Par(ex, 0, Rank(marked, j)) == Par(d, 0, StartOf(marked, |d|, j))
  {
    if j > 0 {
      SumInFront(marked, ex, d, j - 1);
      ParSplit(d, 0, marked[j - 1].offset, marked[j - 1].End());
      if j < |marked| { assert marked[j - 1 + 1].offset == marked[j - 1].End(); }
    }
  }

  /** Behind the last marked block there is no disagreement. */
  lemma {:induction false} NothingBehind(marked: seq<Block>, ex: seq<bool>, d: seq<bool>, j: nat)
    requires TrueAnswers(marked, ex, d, true) && j <= |marked| && Rank(marked, j) == Rank(marked, |marked|)
    ensures StartOf(marked, |d|, j) <= |d|
    ensures !Par(d, StartOf(marked, |d|, j), |d|)
    decreases |marked| - j
  {
    if j < |marked| {
      RankMonotone(marked, j + 1, |marked|);
      NothingBehind(marked, ex, d, j + 1);
      ParSplit(d, marked[j].offset, marked[j].End(), |d|);
      if j + 1 < |marked| { assert marked[j + 1].offset == marked[j].End(); }
    }
  }

  /** Every block gets its true difference, also the one whose parity was not sent. */
  lemma ResolvedIsTrue(marked: seq<Block>, ex: seq<bool>, d: seq<bool>, even: bool, j: nat)
    requires TrueAnswers(marked, ex, d, even) && j < |marked|
    ensures Resolved(marked, ex, j) == Par(d, marked[j].offset, marked[j].End())
  {
    hide Par, Contiguous;
    if marked[j].diff && Rank(marked, j) >= |ex| {
      RankMonotone(marked, j + 1, |marked|);
      SumInFront(marked, ex, d, j);
      NothingBehind(marked, ex, d, j + 1);
      OmittedBlock(marked, d, j);
    }
  }

  lemma OmittedBlock(marked: seq<Block>, d: seq<bool>, j: nat)
    requires Contiguous(marked, |d|) && j < |marked| && !Par(d, 0, |d|)
    requires StartOf(marked, |d|, j + 1) <= |d| && !Par(d, StartOf(marked, |d|, j + 1), |d|)
    ensures marked[j].End() <= |d| && Par(d, 0, marked[j].offset) == Par(d, marked[j].offset, marked[j].End())
  {
    hide Par;
    assert StartOf(marked, |d|, j + 1) == marked[j].End();
    ParSplit(d, 0, marked[j].offset, |d|);
    ParSplit(d, marked[j].offset, marked[j].End(), |d|);
  }

  /** What Alice and Bob send for a block differs exactly when they disagree on an odd number of its bits. */
  lemma OwnParities(c: Checker, d: Checker, a: State, b: State, block: Block)
    requires |a.key| == |b.key| && Attuned(c, d, a, b) && block.End() <= |a.key|
    ensures (OwnParity(c.sums, c.changed, block) != OwnParity(d.sums, d.changed, block))
         == Par(Permuted(Differences(a, b), c.inv), block.offset, block.End())
  {
    hide Par, CountIn;
    SumsGiveParity(c, a.key, a.corrected, block.offset, block.End());
    SumsGiveParity(d, b.key, b.corrected, block.offset, block.End());
    PermutedXors(a.key, b.key, c.inv);
    ParXors(Permuted(a.key, c.inv), Permuted(b.key, c.inv), block.offset, block.End());
  }

  ghost predicate Asked(asked: seq<Block>, d: seq<bool>, even: bool) {
    && (forall j :: 0 <= j < |asked| ==> asked[j].End() <= |d|)
    && (even ==> Contiguous(asked, |d|) && !Par(d, 0, |d|))
  }

  ghost predicate Answered(asked: seq<Block>, res: seq<Block>, d: seq<bool>) {
    && |res| == |asked|
    && forall j :: 0 <= j < |res| ==>
         asked[j].End() <= |d| && res[j] == asked[j].(diff := Par(d, asked[j].offset, asked[j].End()))
  }

  ghost predicate OwnSent(c: Checker, marked: seq<Block>, own: seq<bool>) {
    forall j :: 0 <= j < |marked| && marked[j].diff && Rank(marked, j) < |own| ==>
      marked[j].End() < |c.sums| && own[Rank(marked, j)] == OwnParity(c.sums, c.changed, marked[j])
  }

  lemma AnswersAreTrue(c: Checker, d: Checker, a: State, b: State, asked: seq<Block>, marked: seq<Block>,
                       own: seq<bool>, remote: seq<bool>, even: bool)
    requires Aligned(a, b) && Attuned(c, d, a, b) && Asked(asked, Permuted(Differences(a, b), c.inv), even)
    requires |marked| == |asked| && forall j :: 0 <= j < |asked| ==> marked[j] == Mark(asked[j], c.correct)
    requires |own| == |remote| == ExchangeCount(marked, even) && OwnSent(c, marked, own) && OwnSent(d, marked, remote)
    ensures TrueAnswers(marked, Xors(own, remote), Permuted(Differences(a, b), c.inv), even)
  {
    hide Par, CountIn, Rank, OwnParity, Faithful;
    forall j | 0 <= j < |marked|
      ensures marked[j].End() <= |a.key|
      ensures !marked[j].diff ==> !Par(Permuted(Differences(a, b), c.inv), marked[j].offset, marked[j].End())
      ensures marked[j].diff && Rank(marked, j) < |own| ==>
        Xors(own, remote)[Rank(marked, j)] == Par(Permuted(Differences(a, b), c.inv), marked[j].offset, marked[j].End())
    {
      assert asked[j].End() <= |a.key|;
      if marked[j].diff {
        OwnParities(c, d, a, b, marked[j]);
      } else {
        AllCorrectEven(c, a, b, marked[j].offset, marked[j].End());
      }
    }
  }

  /** Single bits that come out even are bits on which the parties agree. */
  lemma FoundAgree(c: Checker, a: State, b: State, asked: seq<Block>, marked: seq<Block>, res: seq<Block>)
    requires |a.key| == |b.key| && Shaped(c, |a.key|) && Answered(asked, res, Permuted(Differences(a, b), c.inv))
    requires |marked| == |asked| && forall j :: 0 <= j < |asked| ==> marked[j] == Mark(asked[j], c.correct)
    requires forall t :: 0 <= t < |marked| ==> marked[t].offset < |c.inv|
    ensures var found := FoundCorrect(res, marked, c.inv, c.correct, |marked|);
      forall p :: p in found ==> p < |a.key| && a.key[p] == b.key[p]
  {
    hide CountIn;
    var d := Permuted(Differences(a, b), c.inv);
    forall t | 0 <= t < |marked| && !res[t].diff && marked[t].size == 1
      ensures !d[marked[t].offset]
    {
      assert !Par(d, marked[t].offset, marked[t].offset + 1);
    }
  }

  /** One exchange determines the parities of all blocks it asks about, also the one that is not sent. */
  lemma AskedTold(s: State, c: Checker, asked: seq<Block>, even: bool, j: nat)
    requires Determined(s) && AllGood(s) && Shaped(c, |s.key|) && Known(c, s.correct, |s.key|) && j < |asked|
    requires forall t :: 0 <= t < |asked| ==> asked[t].End() <= |s.key|
    requires even ==> Contiguous(asked, |s.key|) && s.checkers != []
    ensures BlockTold(Sent(s, Told(c.inv, MarkAll(asked, c.correct), even)), c.inv, asked[j])
  {
    hide Unnoticed, Keeps, Contiguous, Told, MarkAll, KeepsAll, Good, Known;
    var told := Told(c.inv, MarkAll(asked, c.correct), even);
    forall e: seq<bool> | |e| == |s.key| && Unnoticed(e, s.sent + told)
      ensures Keeps(e, Question(c.inv, asked[j]))
    {
      UnnoticedBefore(e, s.sent, told);
      AskedKept(e, s, c, asked, even, j);
    }
  }

  lemma AskedKept(e: seq<bool>, s: State, c: Checker, asked: seq<Block>, even: bool, j: nat)
    requires |e| == |s.key| && KeepsAll(e, s) && AllGood(s) && Shaped(c, |s.key|) && Known(c, s.correct, |s.key|)
    requires Unnoticed(e, Told(c.inv, MarkAll(asked, c.correct), even)) && j < |asked|
    requires forall t :: 0 <= t < |asked| ==> asked[t].End() <= |s.key|
    requires even ==> Contiguous(asked, |s.key|) && s.checkers != []
    ensures Keeps(e, Question(c.inv, asked[j]))
  {
    hide Par, Rank, Keeps, Contiguous, Good, Resolved, CountIn, KeepsAll;
    var marked, d := MarkAll(asked, c.correct), Permuted(e, c.inv);
    var ex := seq(ExchangeCount(marked, even), _ => false);
    forall t | 0 <= t < |marked|
      ensures !marked[t].diff ==> !Par(d, marked[t].offset, marked[t].End())
      ensures marked[t].diff && Rank(marked, t) < |ex| ==> !Par(d, marked[t].offset, marked[t].End())
    {
      if !marked[t].diff {
        KnownEven(e, s, c, marked[t]);
      } else if Rank(marked, t) < |ex| {
        ChosenAt(marked, t);
        assert Told(c.inv, marked, even)[Rank(marked, t)] == Question(c.inv, marked[t]);
        KeptEven(e, c.inv, marked[t]);
      }
    }
    if even {
      MarkedContiguous(asked, marked, |e|);
      WholeKept(e, s, c.perm, c.inv);
    }
    ResolvedIsTrue(marked, ex, d, even, j);
    NothingResolved(marked, ex, j);
    EvenKept(e, c.inv, asked[j]);
  }

  lemma KnownEven(e: seq<bool>, s: State, c: Checker, b: Block)
    requires |e| == |s.key| && KeepsAll(e, s) && Shaped(c, |e|) && Known(c, s.correct, |e|) && b.End() <= |e|
    requires CountIn(c.correct, b.offset, b.End()) == b.size
    ensures !Par(Permuted(e, c.inv), b.offset, b.End())
  {
    hide Known, KeepsBits, CountIn;
    CountFull(c.correct, b.offset, b.End());
    forall q | b.offset <= q < b.End()
      ensures !Permuted(e, c.inv)[q]
    {
      KnownKept(e, c, s.correct, q);
    }
    ParFalse(Permuted(e, c.inv), b.offset, b.End());
  }

  lemma KeptEven(e: seq<bool>, inv: seq<nat>, b: Block)
    requires Keeps(e, Question(inv, b)) && |inv| == |e| && b.End() <= |e| && forall x :: 0 <= x < |e| ==> inv[x] < |e|
    ensures !Par(Permuted(e, inv), b.offset, b.End())
  {}

  lemma EvenKept(e: seq<bool>, inv: seq<nat>, b: Block)
    requires |inv| == |e| && b.End() <= |e| && forall x :: 0 <= x < |e| ==> inv[x] < |e|
    requires !Par(Permuted(e, inv), b.offset, b.End())
    ensures Keeps(e, Question(inv, b))
  {}

  lemma MarkedContiguous(asked: seq<Block>, marked: seq<Block>, n: nat)
    requires Contiguous(asked, n) && |marked| == |asked|
    requires forall j :: 0 <= j < |asked| ==> marked[j].offset == asked[j].offset && marked[j].size == asked[j].size
    ensures Contiguous(marked, n)
  {
    forall j | 0 <= j < |marked| - 1
      ensures marked[j + 1].offset == marked[j].End()
    {
      assert asked[j + 1].offset == asked[j].End();
    }
  }

  lemma NothingResolved(marked: seq<Block>, ex: seq<bool>, j: nat)
    requires j < |marked| && forall t :: 0 <= t < |ex| ==> !ex[t]
    ensures !Resolved(marked, ex, j)
  {
    ParFalse(ex, 0, |ex|);
  }

  /** The bits found are single blocks that came out even. */
  ghost predicate AmongAsked(found: set<nat>, res: seq<Block>, inv: seq<nat>) {
    forall p :: p in found ==> exists j ::
      0 <= j < |res| && res[j].size == 1 && !res[j].diff && res[j].offset < |inv| && p == inv[res[j].offset]
  }

  ghost predicate SameShape(asked: seq<Block>, res: seq<Block>) {
    && |res| == |asked|
    && forall j :: 0 <= j < |asked| ==> res[j].offset == asked[j].offset && res[j].size == asked[j].size
  }

  lemma FoundTold(s: State, perm: seq<nat>, inv: seq<nat>, asked: seq<Block>, res: seq<Block>, found: set<nat>)
    requires Inverses(perm, inv, |s.key|) && AmongAsked(found, res, inv) && SameShape(asked, res)
    requires forall j :: 0 <= j < |asked| ==> asked[j].End() <= |s.key| && BlockTold(s, inv, asked[j])
    ensures BitsTold(s, found)
  {
    hide Unnoticed, Keeps, BlockTold;
    forall e: seq<bool>, p | |e| == |s.key| && Unnoticed(e, s.sent) && p in found && p < |e|
      ensures !e[p]
    {
      var j :| 0 <= j < |res| && res[j].size == 1 && res[j].offset < |inv| && p == inv[res[j].offset];
      SingleTold(s, perm, inv, asked[j]);
      assert KeepsBits(e, {p});
    }
  }

  lemma FoundAmong(res: seq<Block>, marked: seq<Block>, asked: seq<Block>, inv: seq<nat>, correct: set<nat>)
    requires SameShape(asked, res) && |marked| == |asked|
    requires forall t :: 0 <= t < |marked| ==> marked[t].offset < |inv|
    requires forall j :: 0 <= j < |asked| ==> marked[j] == Mark(asked[j], correct)
    ensures AmongAsked(FoundCorrect(res, marked, inv, correct, |marked|), res, inv)
  {
    hide CountIn;
    var found := FoundCorrect(res, marked, inv, correct, |marked|);
    forall p | p in found
      ensures exists j ::
        0 <= j < |res| && res[j].size == 1 && !res[j].diff && res[j].offset < |inv| && p == inv[res[j].offset]
    {
      var t :| 0 <= t < |marked| && marked[t].size == 1 && !res[t].diff && p == inv[marked[t].offset];
      assert res[t].size == 1 && res[t].offset == marked[t].offset;
    }
  }

  /** After an exchange the sent parities determine everything again. */
  lemma ExchangeDetermined(s: State, c: Checker, asked: seq<Block>, res: seq<Block>, even: bool, found: set<nat>)
    requires Determined(s) && AllGood(s) && Shaped(c, |s.key|) && Known(c, s.correct, |s.key|)
    requires forall t :: 0 <= t < |asked| ==> asked[t].End() <= |s.key|
    requires even ==> Contiguous(asked, |s.key|) && s.checkers != []
    requires AllShaped(s) && Within(found, |s.key|) && AmongAsked(found, res, c.inv)
    requires SameShape(asked, res)
    ensures var t := Sent(s, Told(c.inv, MarkAll(asked, c.correct), even));
      AllShaped(t) && Determined(Noted(t, found))
      && forall j :: 0 <= j < |asked| ==> BlockTold(Noted(t, found), c.inv, asked[j])
  {
    hide Determined, BitsTold, BlockTold, Told, MarkAll, Contiguous, Known, AmongAsked, Good;
    var told := Told(c.inv, MarkAll(asked, c.correct), even);
    var t := Sent(s, told);
    SentDetermined(s, told);
    forall j | 0 <= j < |asked|
      ensures BlockTold(t, c.inv, asked[j])
    {
      AskedTold(s, c, asked, even, j);
    }
    FoundTold(t, c.perm, c.inv, asked, res, found);
    NotedDetermined(t, found);
    forall j | 0 <= j < |asked|
      ensures BlockTold(Noted(t, found), c.inv, asked[j])
    {
      ToldNoted(t, found, c.inv, asked[j]);
    }
  }

  lemma ToldNoted(s: State, found: set<nat>, inv: seq<nat>, b: Block)
    requires AllShaped(s) && Within(found, |s.key|)
    ensures BlockTold(Noted(s, found), inv, b) == BlockTold(s, inv, b)
  {
    hide Unnoticed, Keeps;
  }

  lemma SentView(frame: Frame, before: State, told: seq<Question>)
    requires |frame.checkers| == |before.checkers|
    requires forall i :: 0 <= i < |frame.checkers| ==> frame.checkers[i].View() == before.checkers[i]
    requires frame.key == before.key && frame.correct == before.correct && frame.corrected == before.corrected
    requires frame.sent == before.sent + told
    ensures frame.View() == Sent(before, told)
  {}

  /**
   * The differential parities of the asked blocks, for both parties at once: each sends its parities, each
   * receives those of the other, each writes back. When the total is known to be even one parity is not sent.
   */
  method CalculateBlockDiffparities(alice: Frame, bob: Frame, ca: ParityChecker, cb: ParityChecker,
                                    askedA: seq<Block>, askedB: seq<Block>, even: bool)
    returns (resA: seq<Block>, resB: seq<Block>, ghost found: set<nat>, ghost told: seq<Question>)
    requires Ready(alice, bob) && askedA == askedB && ca !in bob.Repr() && cb !in alice.Repr()
    requires Attuned(ca.View(), cb.View(), alice.View(), bob.View())
    requires Asked(askedA, Permuted(Differences(alice.View(), bob.View()), ca.inv), even)
    requires forall j :: 0 <= j < |askedA| ==> askedA[j].size >= 1
    requires even ==> alice.checkers != []
    modifies alice.Repr(), bob.Repr()
    ensures alice.checkers == old(alice.checkers) && bob.checkers == old(bob.checkers)
    ensures resA == resB
    ensures Answered(askedA, resA, Permuted(Differences(old(alice.View()), old(bob.View())), ca.inv))
    ensures Within(found, |old(alice.key)|)
    ensures AllShaped(old(alice.View())) && AllShaped(old(bob.View()))
    ensures alice.View() == Noted(Sent(old(alice.View()), told), found)
    ensures bob.View() == Noted(Sent(old(bob.View()), told), found)
    ensures Ready(alice, bob)
    ensures told == Told(ca.inv, MarkAll(askedA, old(ca.correct)), even)
    ensures |told| <= |askedA| && (even && askedA != [] ==> |told| < |askedA|)
    ensures AmongAsked(found, resA, ca.inv)
    ensures forall j :: 0 <= j < |askedA| ==> BlockTold(alice.View(), ca.inv, askedA[j])
  {
    hide Par, CountIn, Rank, OwnParity, Faithful, Joint, FoundCorrect, Noted, Contiguous, ExchangeCount, Resolved;
    hide AllShaped, AllGood, Asked, Answered, MarkAll, Told, Determined, BlockTold, AmongAsked, SameShape;
    ghost var a, b, c, d := alice.View(), bob.View(), ca.View(), cb.View();
    JointGood(a, b);
    AttunedShaped(c, d, a, b);
    AskedInside(askedA, Permuted(Differences(a, b), c.inv), even);
    var markedA, ownA, markedB, ownB := BothSend(alice, bob, ca, cb, askedA, askedB, even);
    told := Told(c.inv, markedA, even);
    CountBound(markedA, even);
    SentJoint(a, b, told);
    var oA, oB;
    ghost var foundB;
    oA, resA, found := ca.WriteBack(alice, markedA, ownA, ownB);
    assert bob.View() == Sent(b, told) && cb.View() == d;
    oB, resB, foundB := cb.WriteBack(bob, markedB, ownB, ownA);
    assert Xors(ownB, ownA) == Xors(ownA, ownB);
    RoundIsTrue(c, d, a, b, askedA, markedA, ownA, ownB, resA, even);
    assert resA == resB;
    NotedJoint(Sent(a, told), Sent(b, told), found);
    AnsweredShape(askedA, resA, Permuted(Differences(a, b), c.inv));
    FoundAmong(resA, markedA, askedA, c.inv, c.correct);
    ExchangeDetermined(a, c, askedA, resA, even, found);
  }

  /** Both parties mark the blocks and send their parities. */
  method BothSend(alice: Frame, bob: Frame, ca: ParityChecker, cb: ParityChecker,
                  askedA: seq<Block>, askedB: seq<Block>, even: bool)
    returns (markedA: seq<Block>, ownA: seq<bool>, markedB: seq<Block>, ownB: seq<bool>)
    requires alice.Valid() && bob.Valid() && alice.Repr() !! bob.Repr() && askedA == askedB && ca.correct == cb.correct
    requires |ca.sums| == |alice.key| + 1 == |bob.key| + 1 == |cb.sums| && ca.inv == cb.inv
    requires AllShaped(alice.View()) && AllShaped(bob.View())
    requires forall j :: 0 <= j < |askedA| ==> askedA[j].End() <= |alice.key|
    modifies alice`transmitted, bob`transmitted, alice`sent, bob`sent
    ensures alice.Valid() && bob.Valid()
    ensures |ownA| == |ownB| == ExchangeCount(markedA, even) && markedA == markedB == MarkAll(askedA, ca.correct)
    ensures |markedA| == |askedA| && forall j :: 0 <= j < |askedA| ==> markedA[j] == Mark(askedA[j], ca.correct)
    ensures OwnSent(ca.View(), markedA, ownA) && OwnSent(cb.View(), markedA, ownB)
    ensures alice.View() == Sent(old(alice.View()), Told(ca.inv, markedA, even)) && AllShaped(alice.View())
    ensures bob.View() == Sent(old(bob.View()), Told(ca.inv, markedA, even)) && AllShaped(bob.View())
  {
    hide Par, CountIn, Rank, OwnParity, ExchangeCount, MarkAll, AllShaped, Told;
    ghost var a, b := alice.View(), bob.View();
    var okA, okB;
    okA, markedA, ownA := ca.SendParities(alice, askedA, even);
    okB, markedB, ownB := cb.SendParities(bob, askedB, even);
    assert markedA == markedB;
    MarksAll(askedA, ca.correct, markedA);
    ghost var told := Told(ca.inv, markedA, even);
    SentShaped(a, told);
    SentShaped(b, told);
    SentView(alice, a, told);
    SentView(bob, b, told);
  }

  lemma AnsweredShape(asked: seq<Block>, res: seq<Block>, d: seq<bool>)
    requires Answered(asked, res, d)
    ensures SameShape(asked, res)
  {}

  lemma AttunedShaped(c: Checker, d: Checker, a: State, b: State)
    requires |a.key| == |b.key| && Attuned(c, d, a, b)
    ensures Shaped(c, |a.key|) && Shaped(d, |a.key|) && c.correct == d.correct && c.inv == d.inv
    ensures Known(c, a.correct, |a.key|)
  {}

  lemma AskedInside(asked: seq<Block>, d: seq<bool>, even: bool)
    requires Asked(asked, d, even)
    ensures (forall j :: 0 <= j < |asked| ==> asked[j].End() <= |d|) && (even ==> Contiguous(asked, |d|))
  {}

  /** As long as nothing is known of the asked blocks, all of them cost a parity. */
  lemma {:induction false} AllCost(asked: seq<Block>, correct: set<nat>, j: nat)
    requires j <= |asked| && forall t :: 0 <= t < |asked| ==> asked[t].size >= 1 && Untouched(asked[t], correct)
    ensures Rank(MarkAll(asked, correct), j) == j
  {
    if j > 0 {
      AllCost(asked, correct, j - 1);
      var b := asked[j - 1];
      CountFull(correct, b.offset, b.End());
      assert b.Covers(b.offset);
    }
  }

  /** No bit of the block is known to be correct. */
  ghost predicate Untouched(b: Block, correct: set<nat>) {
    forall q :: q in correct ==> !b.Covers(q)
  }

  lemma CountBound(marked: seq<Block>, even: bool)
    ensures ExchangeCount(marked, even) <= |marked|
    ensures even && marked != [] ==> ExchangeCount(marked, even) < |marked|
  {}

  lemma SentShaped(s: State, told: seq<Question>)
    requires AllShaped(s)
    ensures AllShaped(Sent(s, told))
  {}

  lemma RoundIsTrue(c: Checker, d: Checker, a: State, b: State, asked: seq<Block>, marked: seq<Block>,
                    own: seq<bool>, remote: seq<bool>, res: seq<Block>, even: bool)
    requires Joint(a, b) && Attuned(c, d, a, b) && Asked(asked, Permuted(Differences(a, b), c.inv), even)
    requires forall j :: 0 <= j < |asked| ==> asked[j].size >= 1
    requires |marked| == |asked| && forall j :: 0 <= j < |asked| ==> marked[j] == Mark(asked[j], c.correct)
    requires |own| == |remote| == ExchangeCount(marked, even) && OwnSent(c, marked, own) && OwnSent(d, marked, remote)
    requires |res| == |marked|
    requires forall j :: 0 <= j < |res| ==> res[j] == marked[j].(diff := Resolved(marked, Xors(own, remote), j))
    ensures Answered(asked, res, Permuted(Differences(a, b), c.inv))
    ensures forall t :: 0 <= t < |marked| ==> marked[t].offset < |c.inv|
    ensures forall p :: p in FoundCorrect(res, marked, c.inv, c.correct, |marked|) ==>
      p < |a.key| && a.key[p] == b.key[p]
  {
    hide Par, CountIn, Rank, OwnParity, Faithful, FoundCorrect, Resolved, TrueAnswers, Linked;
    var t := Permuted(Differences(a, b), c.inv);
    AnswersAreTrue(c, d, a, b, asked, marked, own, remote, even);
    forall j | 0 <= j < |marked|
      ensures asked[j].End() <= |t| && res[j] == asked[j].(diff := Par(t, asked[j].offset, asked[j].End()))
    {
      ResolvedIsTrue(marked, Xors(own, remote), t, even, j);
    }
    assert forall j :: 0 <= j < |marked| ==> marked[j].offset < |c.inv| by {
      forall j | 0 <= j < |marked|
        ensures marked[j].offset < |c.inv|
      {
        assert asked[j].End() <= |t|;
      }
    }
    FoundAgree(c, a, b, asked, marked, res);
  }
}
