/** The Cascade protocol: passes of parity blocks over permuted keys until no odd block is left. */
module Cascade {
  import opened Multiples
  import opened Parities
  import opened Permutations
  import opened ParityBlocks
  import opened CascadeStates
  import opened CascadeFrame
  import opened ParityExchange
  import opened BlockCorrection
  import opened Disclosures

  function Ceil(n: nat, k: nat): nat
    requires k >= 1
  {
    (n + k - 1) / k
  }

  lemma CeilBounds(n: nat, k: nat, i: nat)
    requires k >= 1
    ensures i < Ceil(n, k) <==> i * k < n
  {
    var q, r := Ceil(n, k), (n + k - 1) % k;
    assert n + k - 1 == q * k + r;
    if i < q { Monotone(i + 1, q, k); } else { Monotone(q, i, k); }
    NextMultiple(i, k);
  }

  function BlockAt(n: nat, k: nat, i: nat): Block
    requires i * k < n
  {
    Block(i * k, if n - i * k < k then n - i * k else k, false)
  }

  /** Every block of size k starts with a block. */
  ghost predicate BlockStarts(blocks: set<Block>, n: nat, k: nat) {
    forall j: nat | j * k < n :: Starts(blocks, BlockAt(n, k, j).offset)
  }

  lemma ResStarts(asked: seq<Block>, res: seq<Block>, d: seq<bool>, n: nat, k: nat)
    requires k >= 1 && |asked| == Ceil(n, k) && Answered(asked, res, d)
    requires forall j :: 0 <= j < |asked| ==> j * k < n && asked[j] == BlockAt(n, k, j)
    ensures BlockStarts((set x | x in res), n, k)
  {
    hide Par, Ceil;
    forall j: nat | j * k < n
      ensures Starts((set x | x in res), BlockAt(n, k, j).offset)
    {
      CeilBounds(n, k, j);
      assert res[j] in res && res[j].offset == asked[j].offset;
    }
  }

  /** Divide a frame into blocks of size k; the last one may be shorter. */
  method MakeBlocks(n: nat, k: nat) returns (s: seq<Block>)
    requires k >= 1
    ensures Contiguous(s, n) && |s| == Ceil(n, k)
    ensures forall j :: 0 <= j < |s| ==> j * k < n && s[j] == BlockAt(n, k, j)
    ensures forall j :: 0 <= j < |s| ==> 1 <= s[j].size <= k
  {
    hide Ceil, BlockAt;
    s := [];
    for i := 0 to Ceil(n, k)
      invariant |s| == i
      invariant forall j :: 0 <= j < i ==> j * k < n && s[j] == BlockAt(n, k, j)
    {
      CeilBounds(n, k, i);
      s := s + [BlockAt(n, k, i)];
    }
    BlocksContiguous(s, n, k);
  }

  lemma BlocksContiguous(s: seq<Block>, n: nat, k: nat)
    requires k >= 1 && |s| == Ceil(n, k)
    requires forall j :: 0 <= j < |s| ==> j * k < n && s[j] == BlockAt(n, k, j)
    ensures Contiguous(s, n) && forall j :: 0 <= j < |s| ==> 1 <= s[j].size <= k
  {
    hide Ceil;
    CeilBounds(n, k, 0);
    CeilBounds(n, k, |s|);
    forall j | 0 <= j < |s| - 1
      ensures s[j + 1].offset == s[j].End()
    {
      assert (j + 1) * k == j * k + k;
    }
    if s != [] { assert |s| * k == (|s| - 1) * k + k; }
  }

  lemma AnsweredContiguous(asked: seq<Block>, res: seq<Block>, d: seq<bool>)
    requires Contiguous(asked, |d|) && Answered(asked, res, d)
    ensures Contiguous(res, |d|)
    ensures var all := set b | b in res; Tiles(all, |d|) && Truthful(all, d)
  {
    hide Par;
    forall j | 0 <= j < |res| - 1
      ensures res[j + 1].offset == res[j].End()
    {
      assert asked[j + 1].offset == asked[j].End();
    }
    ContiguousTiles(res, |d|);
  }

  /** Two new checkers without blocks are already in tune. */
  lemma NewAttuned(c: Checker, d: Checker, a: State, b: State)
    requires Joint(a, b) && Shaped(c, |a.key|) && Shaped(d, |a.key|) && c.perm == d.perm && c.inv == d.inv
    requires c.changed == d.changed == {} && c.blocks == d.blocks == {} && c.odd == d.odd == {}
    requires Within(a.correct, |a.key|) && c.correct == Images(c, a.correct) && d.correct == Images(d, b.correct)
    requires Faithful(c, a.key, {}) && Faithful(d, b.key, {})
    ensures Attuned(c, d, a, b)
  {
    hide Linked;
  }

  lemma FirstQuestion(a: State, b: State, c: Checker, asked: seq<Block>, even: bool)
    requires Joint(a, b) && Shaped(c, |a.key|) && Contiguous(asked, |a.key|)
    requires even ==> Weight(Differences(a, b)) % 2 == 0
    ensures Asked(asked, Permuted(Differences(a, b), c.inv), even)
  {
    hide Par, Weight, Linked;
    WholeParity(Differences(a, b), c.perm, c.inv);
  }

  /** After the first exchange the new checkers are linked to each other. */
  lemma NewLinked(c: Checker, d: Checker, a: State, b: State, asked: seq<Block>, res: seq<Block>,
                  told: seq<Question>, found: set<nat>)
    requires Joint(a, b) && Attuned(c, d, a, b) && Contiguous(asked, |a.key|)
    requires Answered(asked, res, Permuted(Differences(a, b), c.inv))
    requires AllShaped(a) && Within(found, |a.key|)
    requires AllShaped(b)
    ensures AllShaped(Sent(a, told)) && AllShaped(Sent(b, told))
    ensures
      var all := set x | x in res;
      Linked(c.(blocks := all, odd := OddOf(all)), d.(blocks := all, odd := OddOf(all)),
             Noted(Sent(a, told), found), Noted(Sent(b, told), found))
  {
    hide Par, Tiles, OddOf, Contiguous, Answered, Truthful, Xors;
    AnsweredContiguous(asked, res, Permuted(Differences(a, b), c.inv));
  }

  /** A new pass has blocks no longer than k; the old ones are as they were. */
  lemma AddedKeeps(s: State, c: Checker, told: seq<Question>, found: set<nat>, k: nat)
    requires AllShaped(Sent(s, told)) && Within(found, |s.key|) && Bounded(s, k)
    requires forall b :: b in c.blocks ==> b.size <= k
    ensures
      var t := Added(Noted(Sent(s, told), found), c);
      && Bounded(t, k) && t.key == s.key && t.corrected == s.corrected && t.sent == s.sent + told
  {}

  /** The blocks of a new pass, their first exchange, and the new checkers join their frames. */
  method FirstExchange(alice: Frame, bob: Frame, ca: ParityChecker, cb: ParityChecker, k: nat, even: bool,
                       ghost largest: nat)
    requires Ready(alice, bob) && 1 <= k <= largest && Bounded(alice.View(), largest) && |alice.key| == |bob.key|
    requires ca !in alice.Repr() && ca !in bob.Repr() && cb !in alice.Repr() && cb !in bob.Repr() && ca != cb
    requires Attuned(ca.View(), cb.View(), alice.View(), bob.View())
    requires ca.blocks == {} && ca.odd == {} && cb.blocks == {} && cb.odd == {}
    requires even ==> alice.checkers != [] && Weight(Differences(alice.View(), bob.View())) % 2 == 0
    modifies alice.Repr(), bob.Repr(), ca, cb
    ensures Ready(alice, bob) && Bounded(alice.View(), largest)
    ensures alice.checkers == old(alice.checkers) + [ca] && bob.checkers == old(bob.checkers) + [cb]
    ensures alice.key == old(alice.key) && bob.key == old(bob.key) && alice.corrected == old(alice.corrected)
    ensures alice.transmitted <= old(alice.transmitted) + Ceil(|alice.key|, k)
    ensures even && |alice.key| > 0 ==> alice.transmitted < old(alice.transmitted) + Ceil(|alice.key|, k)
    ensures NewPass(old(alice.View()), alice.View(), ca.perm, |alice.key|, k)
    ensures ca.correct == old(ca.correct) && SentMore(old(alice.sent), alice.sent, ca.inv)
    ensures |old(alice.key)| == |old(bob.key)| == |ca.inv| && forall q :: 0 <= q < |ca.inv| ==> ca.inv[q] < |ca.inv|
    ensures IsOddOf(ca.odd, Permuted(Differences(old(alice.View()), old(bob.View())), ca.inv), k)
    ensures !even && ca.correct == {} ==> alice.transmitted == old(alice.transmitted) + Ceil(|alice.key|, k)
  {
    hide Joint, Bounded, Noted, Permuted, Answered, AllShaped, Attuned;
    hide Contiguous, Ceil, Weight, Asked, Linked, NewPass, Determined, Told, MarkAll, BlockTold, AmongAsked, IsOddOf;
    ghost var a, b, c, d := alice.View(), bob.View(), ca.View(), cb.View();
    JointGood(a, b);
    AttunedShaped(c, d, a, b);
    var askedA := MakeBlocks(|alice.key|, k);
    var askedB := MakeBlocks(|bob.key|, k);
    assert askedA == askedB;
    FirstQuestion(a, b, c, askedA, even);
    ghost var found, told;
    var resA, resB;
    resA, resB, found, told := CalculateBlockDiffparities(alice, bob, ca, cb, askedA, askedB, even);
    assert ca.View() == c && cb.View() == d;
    NewLinked(c, d, a, b, askedA, resA, told, found);
    ResBounded(askedA, resA, Permuted(Differences(a, b), c.inv), largest);
    SentSame(a, told, found);
    SentSame(b, told, found);
    if |alice.key| > 0 { NotEmpty(askedA, |a.key|); }
    ResStarts(askedA, resA, Permuted(Differences(a, b), c.inv), |a.key|, k);
    ToldMore(a.sent, c.inv, MarkAll(askedA, c.correct), even);
    AskedAnswersTold(alice.View(), c.inv, askedA, resA, Permuted(Differences(a, b), c.inv));
    OddFound(askedA, resA, Permuted(Differences(a, b), c.inv), k);
    if c.correct == {} { NothingKnownCost(askedA, c.inv); }
    JoinBoth(alice, bob, ca, cb, resA, resB, a, told, found, largest);
    ItIsNewPass(a, told, found, ca.View(), |a.key|, k);
  }

  /** The odd blocks of a new pass are those of size k with an odd number of disagreements. */
  ghost predicate IsOddOf(odd: set<Block>, d: seq<bool>, k: nat) {
    forall b :: b in odd <==> exists j: nat :: OddAt(b, d, k, j)
  }

  ghost predicate OddAt(b: Block, d: seq<bool>, k: nat, j: nat) {
    && j * k < |d| && BlockAt(|d|, k, j).End() <= |d| && b == BlockAt(|d|, k, j).Toggled()
    && Par(d, BlockAt(|d|, k, j).offset, BlockAt(|d|, k, j).End())
  }

  lemma OddFound(asked: seq<Block>, res: seq<Block>, d: seq<bool>, k: nat)
    requires k >= 1 && |asked| == Ceil(|d|, k) && Answered(asked, res, d)
    requires forall j :: 0 <= j < |asked| ==> j * k < |d| && asked[j] == BlockAt(|d|, k, j)
    ensures IsOddOf(OddOf((set x | x in res)), d, k)
  {
    hide Par, Ceil;
    var all := set x | x in res;
    forall b
      ensures b in OddOf(all) <==> exists j: nat :: OddAt(b, d, k, j)
    {
      if b in OddOf(all) {
        var j :| 0 <= j < |res| && res[j] == b;
        assert OddAt(b, d, k, j);
      }
      if j: nat :| OddAt(b, d, k, j) {
        CeilBounds(|d|, k, j);
        assert res[j] in res && res[j] == b;
      }
    }
  }

  /** When no bit is known yet, every block costs a parity. */
  lemma NothingKnownCost(asked: seq<Block>, inv: seq<nat>)
    requires forall j :: 0 <= j < |asked| ==> asked[j].size >= 1
    ensures |Told(inv, MarkAll(asked, {}), false)| == |asked|
  {
    AllCost(asked, {}, |asked|);
  }

  /** One more pass, cut into blocks of size k; the others are as they were. */
  ghost predicate NewPass(s: State, t: State, perm: seq<nat>, n: nat, k: nat) {
    var m := |s.checkers|;
    && |t.checkers| == m + 1
    && (forall i :: 0 <= i < m ==> Refined(s.checkers[i], t.checkers[i]))
    && t.checkers[m].perm == perm && BlockStarts(t.checkers[m].blocks, n, k)
  }

  lemma ItIsNewPass(s: State, told: seq<Question>, found: set<nat>, c: Checker, n: nat, k: nat)
    requires AllShaped(Sent(s, told)) && Within(found, |s.key|) && BlockStarts(c.blocks, n, k)
    ensures NewPass(s, Added(Noted(Sent(s, told), found), c), c.perm, n, k)
  {
    hide BlockStarts, Starts;
  }

  /** The blocks go into the checkers, the checkers into the frames. */
  method JoinBoth(alice: Frame, bob: Frame, ca: ParityChecker, cb: ParityChecker, resA: seq<Block>, resB: seq<Block>,
                  ghost a: State, ghost told: seq<Question>, ghost found: set<nat>, ghost largest: nat)
    requires Ready(alice, bob) && Bounded(a, largest) && resA == resB
    requires AllShaped(Sent(a, told)) && Within(found, |a.key|) && alice.View() == Noted(Sent(a, told), found)
    requires ca !in alice.Repr() && ca !in bob.Repr() && cb !in alice.Repr() && cb !in bob.Repr() && ca != cb
    requires ca.blocks == {} && ca.odd == {} && cb.blocks == {} && cb.odd == {}
    requires |alice.key| == |bob.key| && forall x :: x in resA ==> x.size <= largest
    requires AnswersTold(alice.View(), ca.inv, resA)
    requires var all := set x | x in resA;
      Linked(ca.View().(blocks := all, odd := OddOf(all)), cb.View().(blocks := all, odd := OddOf(all)),
             alice.View(), bob.View())
    modifies alice, bob, ca, cb
    ensures Ready(alice, bob) && Bounded(alice.View(), largest)
    ensures alice.checkers == old(alice.checkers) + [ca] && bob.checkers == old(bob.checkers) + [cb]
    ensures alice.key == a.key && bob.key == old(bob.key) && alice.corrected == a.corrected
    ensures alice.sent == a.sent + told && ca.correct == old(ca.correct) && ca.odd == OddOf((set x | x in resA))
    ensures ca.blocks == (set x | x in resA)
    ensures alice.View() == Added(Noted(Sent(a, told), found), ca.View())
  {
    hide Joint, Bounded, Noted, AllShaped, Linked, OddOf, Added, Determined;
    NewDetermined(alice.View(), ca.View(), resA);
    ghost var a1, b1 := alice.View(), bob.View();
    Join(alice, ca, resA);
    Join(bob, cb, resB);
    AddedJoint(a1, b1, ca.View(), cb.View());
    AddedKeeps(a, ca.View(), told, found, largest);
    AddedKey(b1, cb.View());
  }

  /** The blocks go into a checker, the checker into its frame. */
  method Join(frame: Frame, checker: ParityChecker, res: seq<Block>)
    requires frame.Valid() && checker !in frame.Repr() && checker.blocks == {} && checker.odd == {}
    modifies frame, checker
    ensures var all := set x | x in res;
      checker.View() == old(checker.View()).(blocks := all, odd := OddOf(all))
    ensures frame.Valid() && frame.checkers == old(frame.checkers) + [checker]
    ensures frame.View() == Added(old(frame.View()), checker.View())
  {
    hide OddOf, Added;
    ghost var before := frame.View();
    checker.InsertBlocks(res);
    assert frame.View() == before;
    frame.AddChecker(checker);
  }

  lemma NewDetermined(s: State, c: Checker, res: seq<Block>)
    requires Determined(s) && AnswersTold(s, c.inv, res)
    ensures var all := set x | x in res; Determined(Added(s, c.(blocks := all, odd := OddOf(all))))
  {
    hide Determined, BlockTold;
    var all := set x | x in res;
    forall b | b in all
      ensures BlockTold(s, c.inv, b)
    {
      var j :| 0 <= j < |res| && res[j] == b;
    }
    AddedDetermined(s, c.(blocks := all, odd := OddOf(all)));
  }

  lemma AddedKey(s: State, c: Checker)
    ensures Added(s, c).key == s.key
  {}

  /** The constructor of a checker on both sides: partial sums, first blocks, first exchange. */
  method NewChecker(alice: Frame, bob: Frame, permA: seq<nat>, invA: seq<nat>, permB: seq<nat>, invB: seq<nat>,
                    k: nat, even: bool, ghost largest: nat)
    requires Ready(alice, bob) && 1 <= k <= largest && Bounded(alice.View(), largest)
    requires permA == permB && invA == invB && Inverses(permA, invA, |alice.key|)
    requires |alice.key| == |bob.key|
    requires even ==> alice.checkers != [] && Weight(Differences(alice.View(), bob.View())) % 2 == 0
    modifies alice.Repr(), bob.Repr()
    ensures Ready(alice, bob) && Bounded(alice.View(), largest)
    ensures fresh(alice.Repr() - old(alice.Repr())) && fresh(bob.Repr() - old(bob.Repr()))
    ensures |alice.checkers| == |old(alice.checkers)| + 1
    ensures alice.key == old(alice.key) && bob.key == old(bob.key) && alice.corrected == old(alice.corrected)
    ensures alice.transmitted <= old(alice.transmitted) + Ceil(|alice.key|, k)
    ensures even && |alice.key| > 0 ==> alice.transmitted < old(alice.transmitted) + Ceil(|alice.key|, k)
    ensures NewPass(old(alice.View()), alice.View(), permA, |alice.key|, k)
    ensures SentMore(old(alice.sent), alice.sent, invA)
    ensures var c := alice.checkers[|alice.checkers| - 1];
      && c.inv == invA && IsOddOf(c.odd, Permuted(Differences(old(alice.View()), old(bob.View())), invA), k)
      && (!even && old(alice.correct) == {} ==>
            c.correct == {} && alice.transmitted == old(alice.transmitted) + Ceil(|alice.key|, k))
  {
    hide Joint, Bounded, Attuned, Ceil, Weight, Images, Faithful, NewPass, IsOddOf, Determined;
    ghost var a, b := alice.View(), bob.View();
    JointGood(a, b);
    var ca := new ParityChecker(alice.key, alice.correct, permA, invA);
    var cb := new ParityChecker(bob.key, bob.correct, permB, invB);
    NewAttuned(ca.View(), cb.View(), a, b);
    if a.correct == {} { NoImages(ca.View()); }
    assert alice.View() == a && bob.View() == b;
    FirstExchange(alice, bob, ca, cb, k, even, largest);
  }

  lemma NoImages(c: Checker)
    ensures Images(c, {}) == {}
  {}

  lemma NotEmpty(s: seq<Block>, n: nat)
    requires Contiguous(s, n) && n > 0
    ensures s != []
  {}

  lemma ResBounded(asked: seq<Block>, res: seq<Block>, d: seq<bool>, k: nat)
    requires Answered(asked, res, d) && forall j :: 0 <= j < |asked| ==> asked[j].size <= k
    ensures forall b :: b in res ==> b.size <= k
  {
    hide Par;
    forall b | b in res
      ensures b.size <= k
    {
      var j :| 0 <= j < |res| && res[j] == b;
      assert asked[j].size <= k;
    }
  }

  /** The block size of a pass: two chosen from the error rate, two fixed. */
  function BlockSize(n: nat, k1: nat, k2: nat, step: nat): nat {
    if step == 1 then k1
    else if step == 2 then k2
    else if step == 3 then (if 4096 < (n + 1) / 2 then 4096 else (n + 1) / 2)
    else (n + 1) / 2
  }

  ghost predicate GoodSizes(n: nat, k1: nat, k2: nat) {
    n >= 1 && k1 >= 1 && k2 >= 1
  }

  /** The largest block size of the passes 1, 2, ..., passes. */
  function Largest(n: nat, k1: nat, k2: nat, passes: nat): (k: nat)
    ensures forall step :: 1 <= step <= passes ==> BlockSize(n, k1, k2, step) <= k
  {
    if passes == 0 then 0
    else
      var k, last := Largest(n, k1, k2, passes - 1), BlockSize(n, k1, k2, passes);
      if k < last then last else k
  }

  /** The parities of the first exchange of every pass: one for each block, one less from the second pass on. */
  function FirstParities(n: nat, k1: nat, k2: nat, passes: nat): int
    requires GoodSizes(n, k1, k2)
  {
    if passes == 0 then 0
    else
      FirstParities(n, k1, k2, passes - 1) + Ceil(n, BlockSize(n, k1, k2, passes)) - if passes == 1 then 0 else 1
  }

  function Max(x: nat, y: nat): nat {
    if x < y then y else x
  }

  /** The largest block is k1, k2 or half the key, as far as there are such passes. */
  lemma {:induction false} LargestIs(n: nat, k1: nat, k2: nat, passes: nat)
    ensures var half := (n + 1) / 2;
      Largest(n, k1, k2, passes) ==
        if passes == 0 then 0
        else if passes == 1 then k1
        else if passes == 2 then Max(k1, k2)
        else if passes == 3 then Max(Max(k1, k2), if 4096 < half then 4096 else half)
        else Max(Max(k1, k2), half)
  {
    if passes > 0 { LargestIs(n, k1, k2, passes - 1); }
  }

  /** From the fourth pass on the key is cut into two blocks, and one parity is sent. */
  lemma {:induction false} FirstParitiesAre(n: nat, k1: nat, k2: nat, passes: nat)
    requires GoodSizes(n, k1, k2)
    ensures FirstParities(n, k1, k2, passes) ==
      (if passes >= 1 then Ceil(n, k1) else 0)
      + (if passes >= 2 then Ceil(n, k2) - 1 else 0)
      + (if passes >= 3 then Ceil(n, if 4096 < (n + 1) / 2 then 4096 else (n + 1) / 2) - 1 else 0)
      + (if passes >= 4 && n > 1 then passes - 3 else 0)
  {
    hide Ceil;
    if passes > 0 { FirstParitiesAre(n, k1, k2, passes - 1); }
    HalfKey(n);
  }

  lemma HalfKey(n: nat)
    requires n >= 1
    ensures Ceil(n, (n + 1) / 2) == if n > 1 then 2 else 1
  {
    hide Ceil;
    var k := (n + 1) / 2;
    CeilBounds(n, k, 1);
    CeilBounds(n, k, 2);
    CeilBounds(n, k, 0);
  }

  /** The first checker with an odd block, or -1. */
  method FirstOdd(frame: Frame, step: nat) returns (corr: int)
    requires step <= |frame.checkers|
    ensures -1 <= corr < step
    ensures corr == -1 ==> forall i :: 0 <= i < step ==> frame.checkers[i].odd == {}
    ensures corr >= 0 ==> frame.checkers[corr].odd != {} && forall i :: 0 <= i < corr ==> frame.checkers[i].odd == {}
  {
    for i := 0 to step
      invariant forall j :: 0 <= j < i ==> frame.checkers[j].odd == {}
    {
      if |frame.checkers[i].odd| > 0 { return i; }
    }
    corr := -1;
  }

  ghost predicate GoodInputs(n: nat, k1: nat, k2: nat, passes: nat, draws: seq<seq<nat>>) {
    && GoodSizes(n, k1, k2) && |draws| > passes
    && forall step :: 2 <= step <= passes ==> GoodDraws(draws[step], n)
  }

  /** The order in which a pass looks at the bits. */
  ghost predicate IsPermutationOf(perm: seq<nat>, n: nat, draws: seq<nat>, step: nat) {
    if step == 1 then perm == Identity(n) else GoodDraws(draws, n) && perm == Shuffled(n, draws, n)
  }

  ghost predicate IsPass(c: Checker, n: nat, k: nat, draws: seq<nat>, step: nat) {
    IsPermutationOf(c.perm, n, draws, step) && BlockStarts(c.blocks, n, k)
  }

  ghost predicate PassAt(s: State, n: nat, k1: nat, k2: nat, draws: seq<seq<nat>>, i: nat)
    requires i < |s.checkers|
  {
    i + 1 < |draws| && IsPass(s.checkers[i], n, BlockSize(n, k1, k2, i + 1), draws[i + 1], i + 1)
  }

  ghost predicate Partitioned(s: State, n: nat, k1: nat, k2: nat, draws: seq<seq<nat>>) {
    forall i :: 0 <= i < |s.checkers| ==> PassAt(s, n, k1, k2, draws, i)
  }

  lemma RefinedPass(c: Checker, d: Checker, n: nat, k: nat, draws: seq<nat>, step: nat)
    requires Refined(c, d) && IsPass(c, n, k, draws, step)
    ensures IsPass(d, n, k, draws, step)
  {
    hide Starts, IsPermutationOf;
  }

  lemma PartitionKept(s: State, t: State, n: nat, k1: nat, k2: nat, draws: seq<seq<nat>>)
    requires SamePasses(s, t) && Partitioned(s, n, k1, k2, draws)
    ensures Partitioned(t, n, k1, k2, draws)
  {
    hide Refined, IsPass, BlockSize;
    forall i | 0 <= i < |t.checkers|
      ensures PassAt(t, n, k1, k2, draws, i)
    {
      assert PassAt(s, n, k1, k2, draws, i);
      RefinedPass(s.checkers[i], t.checkers[i], n, BlockSize(n, k1, k2, i + 1), draws[i + 1], i + 1);
    }
  }

  lemma PartitionMore(s: State, t: State, perm: seq<nat>, n: nat, k1: nat, k2: nat, draws: seq<seq<nat>>)
    requires Partitioned(s, n, k1, k2, draws) && |s.checkers| + 1 < |draws|
    requires NewPass(s, t, perm, n, BlockSize(n, k1, k2, |s.checkers| + 1))
    requires IsPermutationOf(perm, n, draws[|s.checkers| + 1], |s.checkers| + 1)
    ensures Partitioned(t, n, k1, k2, draws)
  {
    hide Refined, IsPass, BlockSize, IsPermutationOf, BlockStarts;
    forall i | 0 <= i < |t.checkers|
      ensures PassAt(t, n, k1, k2, draws, i)
    {
      if i < |s.checkers| {
        assert PassAt(s, n, k1, k2, draws, i);
        RefinedPass(s.checkers[i], t.checkers[i], n, BlockSize(n, k1, k2, i + 1), draws[i + 1], i + 1);
      } else {
        NewIsPass(t.checkers[i], n, BlockSize(n, k1, k2, i + 1), draws[i + 1], i + 1);
      }
    }
  }

  lemma NewIsPass(c: Checker, n: nat, k: nat, draws: seq<nat>, step: nat)
    requires IsPermutationOf(c.perm, n, draws, step) && BlockStarts(c.blocks, n, k)
    ensures IsPass(c, n, k, draws, step)
  {}

  /** Every parity that was sent is that of a block in the order of one of the passes. */
  ghost predicate Placed(s: State) {
    forall t :: 0 <= t < |s.sent| ==> exists i :: 0 <= i < |s.checkers| && s.sent[t].inv == s.checkers[i].inv
  }

  lemma PlacedMore(s: State, t: State, m: nat)
    requires Placed(s) && m < |t.checkers| && SentMore(s.sent, t.sent, t.checkers[m].inv)
    requires |s.checkers| <= |t.checkers| && forall i :: 0 <= i < |s.checkers| ==> Refined(s.checkers[i], t.checkers[i])
    ensures Placed(t)
  {
    hide Starts;
    forall x | 0 <= x < |t.sent|
      ensures exists i :: 0 <= i < |t.checkers| && t.sent[x].inv == t.checkers[i].inv
    {
      if x < |s.sent| {
        assert t.sent[x] == s.sent[x];
        var i :| 0 <= i < |s.checkers| && s.sent[x].inv == s.checkers[i].inv;
        assert Refined(s.checkers[i], t.checkers[i]);
      } else {
        assert t.sent[x].inv == t.checkers[m].inv;
      }
    }
  }

  /** The odd blocks among the first j of the first pass. */
  ghost function OddList(d: seq<bool>, k: nat, j: nat): (s: seq<Block>)
    requires forall i: nat :: i < j ==> i * k < |d| && BlockAt(|d|, k, i).End() <= |d|
  {
    if j == 0 then []
    else
      var b := BlockAt(|d|, k, j - 1);
      OddList(d, k, j - 1) + if Par(d, b.offset, b.End()) then [b.Toggled()] else []
  }

  /** The halvings that these blocks take at least, each until a single bit is left. */
  ghost function LeastHalvings(d: seq<bool>, k: nat, j: nat): nat
    requires forall i: nat :: i < j ==> i * k < |d| && BlockAt(|d|, k, i).End() <= |d|
  {
    if j == 0 then 0
    else
      var b := BlockAt(|d|, k, j - 1);
      LeastHalvings(d, k, j - 1) + if Par(d, b.offset, b.End()) then FloorLog(b.size) else 0
  }

  lemma {:induction false} OddListLeast(d: seq<bool>, k: nat, j: nat)
    requires forall i: nat :: i < j ==> i * k < |d| && BlockAt(|d|, k, i).End() <= |d|
    ensures LeastEffort(OddList(d, k, j)) == LeastHalvings(d, k, j)
  {
    hide Par, FloorLog, BlockAt;
    if j > 0 {
      OddListLeast(d, k, j - 1);
      var b := BlockAt(|d|, k, j - 1);
      if Par(d, b.offset, b.End()) {
        LeastLast(OddList(d, k, j - 1), b.Toggled());
      } else {
        assert OddList(d, k, j) == OddList(d, k, j - 1);
      }
    }
  }

  lemma {:induction false} OddListMembers(d: seq<bool>, k: nat, j: nat, b: Block)
    requires forall i: nat :: i < j ==> i * k < |d| && BlockAt(|d|, k, i).End() <= |d|
    ensures b in OddList(d, k, j) <==> exists i: nat :: i < j && OddAt(b, d, k, i)
  {
    hide Par, BlockAt;
    if j > 0 {
      OddListMembers(d, k, j - 1, b);
      assert OddAt(b, d, k, j - 1) <==>
        var c := BlockAt(|d|, k, j - 1); b == c.Toggled() && Par(d, c.offset, c.End());
      if i: nat :| i < j && OddAt(b, d, k, i) { assert i < j - 1 || i == j - 1; }
    }
  }

  lemma {:induction false} OddListDistinct(d: seq<bool>, k: nat, j: nat)
    requires k >= 1 && forall i: nat :: i < j ==> i * k < |d| && BlockAt(|d|, k, i).End() <= |d|
    ensures NoDuplicates(OddList(d, k, j)) && forall b :: b in OddList(d, k, j) ==> b.offset < j * k
  {
    hide Par;
    if j > 0 {
      OddListDistinct(d, k, j - 1);
      NextMultiple(j - 1, k);
    }
  }

  lemma LeastLast(s: seq<Block>, b: Block)
    ensures LeastEffort(s + [b]) == LeastEffort(s) + FloorLog(b.size)
  {
    assert (s + [b])[..|s|] == s;
  }

  /** All blocks of a pass are inside the key. */
  lemma BlocksInside(n: nat, k: nat)
    requires k >= 1
    ensures forall i: nat :: i < Ceil(n, k) ==> i * k < n && BlockAt(n, k, i).End() <= n
  {
    hide Ceil;
    forall i: nat | i < Ceil(n, k)
      ensures i * k < n && BlockAt(n, k, i).End() <= n
    {
      CeilBounds(n, k, i);
    }
  }

  /** What the first pass costs at least: a parity for every block, and the halvings of the odd ones. */
  ghost function FirstPassLeast(d: seq<bool>, k: nat): nat
    requires k >= 1
  {
    BlocksInside(|d|, k);
    Ceil(|d|, k) + LeastHalvings(d, k, Ceil(|d|, k))
  }

  /** The start of the first pass: nothing is known yet, and every block has cost a parity. */
  ghost predicate FirstPass(alice: Frame, d: seq<bool>, k: nat)
    requires k >= 1
    reads alice, alice.checkers
  {
    && |alice.checkers| == 1 && alice.checkers[0].correct == {} && IsOddOf(alice.checkers[0].odd, d, k)
    && alice.transmitted == Ceil(|d|, k)
  }

  lemma FirstPassOdd(odd: set<Block>, d: seq<bool>, k: nat) returns (s: seq<Block>)
    requires k >= 1 && IsOddOf(odd, d, k)
    ensures NoDuplicates(s) && Elems(s) == odd && AllUntouched(s, {})
    ensures FirstPassLeast(d, k) == Ceil(|d|, k) + LeastEffort(s)
  {
    hide Ceil, Par, LeastEffort;
    BlocksInside(|d|, k);
    s := OddList(d, k, Ceil(|d|, k));
    OddListLeast(d, k, Ceil(|d|, k));
    OddListDistinct(d, k, Ceil(|d|, k));
    forall b
      ensures b in s <==> b in odd
    {
      OddListMembers(d, k, Ceil(|d|, k), b);
      if j: nat :| OddAt(b, d, k, j) { CeilBounds(|d|, k, j); }
    }
  }

  /** What the passes up to now have done to the keys, and what that has disclosed. */
  ghost predicate Passing(alice: Frame, bob: Frame, a0: State, b0: State, k1: nat, k2: nat, passes: nat,
                          draws: seq<seq<nat>>, largest: nat)
    reads alice, alice.Repr(), bob, bob.Repr()
  {
    var a, b := alice.View(), bob.View();
    && Ready(alice, bob) && Bounded(a, largest) && Repairs(a0, b0, a, b)
    && GoodSizes(|alice.key|, k1, k2) && |alice.checkers| == passes
    && Partitioned(a, |alice.key|, k1, k2, draws) && Placed(a)
    && alice.transmitted <= FirstParities(|alice.key|, k1, k2, passes) + |alice.corrected| * CeilLog(largest)
  }

  ghost predicate NoOddBlock(frame: Frame)
    reads frame, frame.checkers
  {
    forall i :: 0 <= i < |frame.checkers| ==> frame.checkers[i].odd == {}
  }

  /** Before every pass but the first, the parties disagree on an even number of bits. */
  lemma EvenAfterPass(alice: Frame, bob: Frame)
    requires Ready(alice, bob) && NoOddBlock(alice)
    ensures |alice.key| == |bob.key|
    ensures alice.checkers != [] ==> Weight(Differences(alice.View(), bob.View())) % 2 == 0
  {
    hide Weight, Linked;
    if alice.checkers != [] {
      assert alice.View().checkers[0].odd == {};
      NoOddBlockEven(alice.View(), bob.View(), 0);
    }
  }

  /** No shuffling in the first pass. */
  method PassPermutation(n: nat, draws: seq<nat>, step: nat) returns (perm: seq<nat>, inv: seq<nat>)
    requires step >= 2 ==> GoodDraws(draws, n)
    requires step >= 1
    ensures IsPermutationOf(perm, n, draws, step) && Inverses(perm, inv, n)
  {
    hide Inverses, Shuffled;
    var p, i;
    if step == 1 {
      p, i := GenerateIdentityPermutation(n);
    } else {
      p, i := GenerateRandomPermutation(n, draws);
    }
    perm, inv := p[..], i[..];
  }

  lemma SamePermutation(p: seq<nat>, i: seq<nat>, q: seq<nat>, j: seq<nat>, n: nat, draws: seq<nat>, step: nat)
    requires IsPermutationOf(p, n, draws, step) && Inverses(p, i, n)
    requires IsPermutationOf(q, n, draws, step) && Inverses(q, j, n)
    ensures p == q && i == j
  {
    InverseUnique(p, i, j, n);
  }

  /** The permutations of a pass and its new checker. */
  method StartPass(alice: Frame, bob: Frame, k1: nat, k2: nat, step: nat, draws: seq<seq<nat>>,
                   ghost a0: State, ghost b0: State, ghost largest: nat)
    requires step >= 1 && Passing(alice, bob, a0, b0, k1, k2, step - 1, draws, largest) && NoOddBlock(alice)
    requires step < |draws| && (step >= 2 ==> GoodDraws(draws[step], |alice.key|))
    requires BlockSize(|alice.key|, k1, k2, step) <= largest
    modifies alice.Repr(), bob.Repr()
    ensures Passing(alice, bob, a0, b0, k1, k2, step, draws, largest) && alice.key == old(alice.key)
    ensures old(alice.transmitted) <= alice.transmitted && |old(alice.key)| == |old(bob.key)| && k1 >= 1
    ensures step == 1 && old(alice.correct) == {} && old(alice.transmitted) == 0 ==>
      FirstPass(alice, Xors(old(alice.key), old(bob.key)), k1)
    ensures fresh(alice.Repr() - old(alice.Repr())) && fresh(bob.Repr() - old(bob.Repr()))
  {
    hide Ready, Bounded, Weight, Repairs, Ceil, CeilLog, Inverses, GoodDraws, IsPermutationOf, Partitioned, NewPass;
    hide Placed, IsOddOf, SentMore, Permuted, FirstParities, NoOddBlock;
    FirstParitiesNext(|alice.key|, k1, k2, step);
    EvenAfterPass(alice, bob);
    ghost var a1, b1 := alice.View(), bob.View();
    var n := |alice.key|;
    ReadyCounts(alice, bob);
    var permA, invA := PassPermutation(n, draws[step], step);
    var permB, invB := PassPermutation(n, draws[step], step);
    SamePermutation(permA, invA, permB, invB, n, draws[step], step);
    assert alice.View() == a1 && bob.View() == b1;
    NewChecker(alice, bob, permA, invA, permB, invB, BlockSize(n, k1, k2, step), step >= 2, largest);
    NoRepairs(a1, b1, alice.View(), bob.View());
    RepairsMore(a0, b0, a1, b1, alice.View(), bob.View());
    PartitionMore(a1, alice.View(), permA, n, k1, k2, draws);
    NewPlaced(a1, alice.View(), permA, n, BlockSize(n, k1, k2, step));
    SentGrows(a1.sent, alice.sent, invA);
    ReadyCounts(alice, bob);
    if step == 1 { InOwnOrder(Xors(a1.key, b1.key), permA, invA, n, draws[step]); }
  }

  lemma ReadyCounts(alice: Frame, bob: Frame)
    requires Ready(alice, bob)
    ensures alice.transmitted == |alice.sent| && bob.transmitted == |bob.sent| && |alice.key| == |bob.key|
  {}

  lemma FirstParitiesNext(n: nat, k1: nat, k2: nat, passes: nat)
    requires GoodSizes(n, k1, k2) && passes >= 1
    ensures BlockSize(n, k1, k2, passes) >= 1
    ensures FirstParities(n, k1, k2, passes) ==
      FirstParities(n, k1, k2, passes - 1) + Ceil(n, BlockSize(n, k1, k2, passes)) - if passes == 1 then 0 else 1
  {}

  lemma SentGrows(before: seq<Question>, after: seq<Question>, inv: seq<nat>)
    requires SentMore(before, after, inv)
    ensures |before| <= |after|
  {}

  lemma NewPlaced(s: State, t: State, perm: seq<nat>, n: nat, k: nat)
    requires Placed(s) && NewPass(s, t, perm, n, k) && SentMore(s.sent, t.sent, t.checkers[|s.checkers|].inv)
    ensures Placed(t)
  {
    hide Refined, BlockStarts, SentMore, Placed;
    PlacedMore(s, t, |s.checkers|);
  }

  /** In the first pass the bits are looked at in their own order. */
  lemma InOwnOrder(d: seq<bool>, perm: seq<nat>, inv: seq<nat>, n: nat, draws: seq<nat>)
    requires |d| == n && IsPermutationOf(perm, n, draws, 1) && Inverses(perm, inv, n)
    ensures Permuted(d, inv) == d
  {
    assert Inverses(perm, Identity(n), n);
    InverseUnique(perm, inv, Identity(n), n);
  }

  lemma MoreCorrections(t: int, u: int, f: int, c: nat, m: nat, l: nat)
    requires t <= f + c * l && u <= t + m * l
    ensures u <= f + (c + m) * l
  {
    assert (c + m) * l == c * l + m * l;
  }

  /** Correct the odd blocks of one checker within a pass. */
  method CorrectOne(alice: Frame, bob: Frame, i: nat, k1: nat, k2: nat, ghost passes: nat,
                    ghost draws: seq<seq<nat>>, ghost a0: State, ghost b0: State, ghost largest: nat)
    requires Passing(alice, bob, a0, b0, k1, k2, passes, draws, largest) && i < |alice.checkers|
    modifies alice.Repr(), bob.Repr()
    ensures Passing(alice, bob, a0, b0, k1, k2, passes, draws, largest) && alice.checkers[i].odd == {}
    ensures alice.checkers == old(alice.checkers) && bob.checkers == old(bob.checkers) && alice.key == old(alice.key)
    ensures |alice.corrected| == old(|alice.corrected|) + old(|alice.checkers[i].odd|)
    ensures old(alice.transmitted) <= alice.transmitted
    ensures forall s :: NoDuplicates(s) && Elems(s) == old(alice.checkers[i].odd)
                        && AllUntouched(s, old(alice.checkers[i].correct)) ==>
      alice.transmitted >= old(alice.transmitted) + LeastEffort(s)
  {
    hide Ready, Bounded, Repairs, CeilLog, FirstParities, Partitioned, SamePasses, Placed, SentMore;
    hide NoDuplicates, Elems, AllUntouched, LeastEffort;
    ghost var a1, b1, t, c := alice.View(), bob.View(), alice.transmitted, |alice.corrected|;
    ghost var m := |alice.checkers[i].odd|;
    CorrectBlocks(alice, bob, i, largest);
    RepairsMore(a0, b0, a1, b1, alice.View(), bob.View());
    SameKey(a1, b1, alice.View(), bob.View());
    PartitionKept(a1, alice.View(), |alice.key|, k1, k2, draws);
    PlacedKept(a1, alice.View(), i);
    MoreCorrections(t, alice.transmitted, FirstParities(|alice.key|, k1, k2, passes), c, m, CeilLog(largest));
  }

  lemma PlacedKept(s: State, t: State, i: nat)
    requires Placed(s) && SamePasses(s, t) && i < |t.checkers| && SentMore(s.sent, t.sent, t.checkers[i].inv)
    ensures Placed(t)
  {
    hide Refined, SentMore, Placed;
    PlacedMore(s, t, i);
  }

  lemma SameKey(a0: State, b0: State, a1: State, b1: State)
    requires Repairs(a0, b0, a1, b1)
    ensures a1.key == a0.key && |a0.key| == |b0.key|
    ensures |a1.corrected| <= Weight(Differences(a0, b0)) + |a0.corrected|
  {}

  /** The corrections of one pass: all checkers in turn, the earliest first, until no odd block is left. */
  method Correct(alice: Frame, bob: Frame, k1: nat, k2: nat, step: nat, ghost draws: seq<seq<nat>>,
                 ghost a0: State, ghost b0: State, ghost largest: nat, ghost d: seq<bool>)
    requires step >= 1 && Passing(alice, bob, a0, b0, k1, k2, step, draws, largest)
    requires step == 1 ==> k1 >= 1 && FirstPass(alice, d, k1)
    modifies alice.Repr(), bob.Repr()
    ensures Passing(alice, bob, a0, b0, k1, k2, step, draws, largest) && NoOddBlock(alice)
    ensures alice.checkers == old(alice.checkers) && bob.checkers == old(bob.checkers) && alice.key == old(alice.key)
    ensures old(alice.transmitted) <= alice.transmitted
    ensures step == 1 ==> alice.transmitted >= FirstPassLeast(d, k1)
  {
    hide Joint, Bounded, Repairs, CeilLog, FirstParities, Weight, Partitioned, Placed, Determined;
    hide IsOddOf, LeastEffort, NoDuplicates, Elems, AllUntouched, FirstPassLeast, Ceil;
    SameKey(a0, b0, alice.View(), bob.View());
    ghost var total := Weight(Differences(a0, b0)) + |a0.corrected|;
    if step == 1 {
      ghost var odd := FirstPassOdd(alice.checkers[0].odd, d, k1);
      CorrectOne(alice, bob, 0, k1, k2, step, draws, a0, b0, largest);
      return;
    }
    while true
      invariant Passing(alice, bob, a0, b0, k1, k2, step, draws, largest)
      invariant alice.checkers == old(alice.checkers) && bob.checkers == old(bob.checkers)
      invariant alice.key == old(alice.key)
      invariant |alice.corrected| <= total && old(alice.transmitted) <= alice.transmitted
      decreases total - |alice.corrected|
    {
      ghost var a, b := alice.View(), bob.View();
      var corr := FirstOdd(alice, step);
      assert alice.View() == a && bob.View() == b;
      if corr < 0 { break; }
      CorrectOne(alice, bob, corr, k1, k2, step, draws, a0, b0, largest);
      SameKey(a0, b0, alice.View(), bob.View());
    }
  }

  /** The corrected key, the number of disclosed bits and the corrected positions, as noted in the key's meta data. */
  datatype Outcome = Outcome(key: seq<bool>, disclosed: nat, corrected: set<nat>)

  lemma NothingPassed(alice: Frame, bob: Frame, k1: nat, k2: nat, n: nat, passes: nat,
                      draws: seq<seq<nat>>)
    requires alice.Valid() && bob.Valid() && alice.Repr() !! bob.Repr() && GoodSizes(n, k1, k2)
    requires |alice.key| == |bob.key| == n
    requires alice.View() == State(alice.key, [], {}, {}, []) && bob.View() == State(bob.key, [], {}, {}, [])
    ensures Passing(alice, bob, alice.View(), bob.View(), k1, k2, 0, draws, Largest(n, k1, k2, passes))
    ensures NoOddBlock(alice)
  {
    hide Weight, Largest, CeilLog;
    NoRepairs(alice.View(), bob.View(), alice.View(), bob.View());
  }

  lemma PositiveSize(n: nat, k1: nat, k2: nat, step: nat)
    requires GoodSizes(n, k1, k2)
    ensures BlockSize(n, k1, k2, step) >= 1
  {}

  /** The whole protocol, on both sides. */
  method Process(keyA: seq<bool>, keyB: seq<bool>, k1: nat, k2: nat, passes: nat, draws: seq<seq<nat>>)
    returns (outA: Outcome, outB: Outcome, ghost sent: seq<Question>)
    requires |keyA| == |keyB| && GoodInputs(|keyA|, k1, k2, passes, draws)
    ensures outA.key == keyA && |outB.key| == |keyB|
    ensures outA.corrected == outB.corrected && outA.disclosed == outB.disclosed == |sent|
    ensures forall p :: p in outB.corrected ==> p < |keyA| && keyA[p] != keyB[p]
    ensures forall p: nat :: p < |keyA| ==> outB.key[p] == if p in outB.corrected then keyA[p] else keyB[p]
    ensures Weight(Xors(outA.key, outB.key)) + |outB.corrected| == Weight(Xors(keyA, keyB))
    ensures passes >= 1 ==> Weight(Xors(outA.key, outB.key)) % 2 == 0
    ensures EvenPasses(Xors(outA.key, outB.key), k1, k2, passes, draws)
    ensures AllPlaced(sent, |keyA|, passes, draws)
    ensures forall e: seq<bool> :: |e| == |keyA| && Unnoticed(e, sent) ==>
      KeepsBits(e, outB.corrected) && EvenPasses(e, k1, k2, passes, draws)
    ensures passes >= 1 ==> outA.disclosed >= FirstPassLeast(Xors(keyA, keyB), k1)
    ensures outA.disclosed <= FirstParities(|keyA|, k1, k2, passes)
                              + |outA.corrected| * CeilLog(Largest(|keyA|, k1, k2, passes))
  {
    hide EvenPasses, AllPlaced, FirstPassLeast, FirstPass, Unnoticed, KeepsBits;
    hide Passing, NoOddBlock, CeilLog, FirstParities, Weight, Largest, GoodDraws, BlockSize, EvenPass;
    var n := |keyA|;
    ghost var largest := Largest(n, k1, k2, passes);
    var alice := new Frame(keyA);
    var bob := new Frame(keyB);
    ghost var a0, b0 := alice.View(), bob.View();
    NothingPassed(alice, bob, k1, k2, n, passes, draws);
    for step := 1 to passes + 1
      invariant Passing(alice, bob, a0, b0, k1, k2, step - 1, draws, largest) && NoOddBlock(alice) && alice.key == keyA
      invariant fresh(alice.Repr()) && fresh(bob.Repr())
      invariant step == 1 ==> alice.correct == {} && alice.transmitted == 0 && bob.key == keyB
      invariant step > 1 ==> alice.transmitted >= FirstPassLeast(Xors(keyA, keyB), k1)
    {
      StartPass(alice, bob, k1, k2, step, draws, a0, b0, largest);
      Correct(alice, bob, k1, k2, step, draws, a0, b0, largest, Xors(keyA, keyB));
    }
    PassedMeans(alice, bob, a0, b0, k1, k2, passes, draws, largest);
    PassesLiteral(Xors(alice.key, bob.key), k1, k2, passes, draws);
    DisclosedMeans(alice, bob, a0, b0, k1, k2, passes, draws, largest);
    sent := alice.sent;
    outA := Outcome(alice.key, alice.transmitted, alice.corrected);
    outB := Outcome(bob.key, bob.transmitted, bob.corrected);
  }

  /** Every pass has blocks with an even number of set bits: the sizes are k1, k2, at most 4096, and half the key. */
  ghost predicate EvenPasses(d: seq<bool>, k1: nat, k2: nat, passes: nat, draws: seq<seq<nat>>)
    requires |draws| > passes
  {
    && (passes >= 1 ==> EvenPass(d, k1, draws[1], 1))
    && (passes >= 2 ==> EvenPass(d, k2, draws[2], 2))
    && forall step :: 3 <= step <= passes ==>
         EvenPass(d, if step == 3 && 4096 < (|d| + 1) / 2 then 4096 else (|d| + 1) / 2, draws[step], step)
  }

  lemma PassesLiteral(d: seq<bool>, k1: nat, k2: nat, passes: nat, draws: seq<seq<nat>>)
    requires |draws| > passes
    requires forall step :: 1 <= step <= passes ==> EvenPass(d, BlockSize(|d|, k1, k2, step), draws[step], step)
    ensures EvenPasses(d, k1, k2, passes, draws)
  {
    hide EvenPass;
    assert passes >= 1 ==> EvenPass(d, BlockSize(|d|, k1, k2, 1), draws[1], 1);
    assert passes >= 2 ==> EvenPass(d, BlockSize(|d|, k1, k2, 2), draws[2], 2);
  }

  /** Every sent parity is that of a block in the order of one of the passes. */
  ghost predicate AllPlaced(sent: seq<Question>, n: nat, passes: nat, draws: seq<seq<nat>>)
    requires |draws| > passes
  {
    forall t :: 0 <= t < |sent| ==> PlacedAt(sent[t], n, passes, draws)
  }

  ghost predicate PlacedAt(q: Question, n: nat, passes: nat, draws: seq<seq<nat>>)
    requires |draws| > passes
  {
    exists step: nat, perm :: 1 <= step <= passes && OrderOf(perm, q.inv, n, draws, step)
  }

  ghost predicate OrderOf(perm: seq<nat>, inv: seq<nat>, n: nat, draws: seq<seq<nat>>, step: nat)
    requires step < |draws|
  {
    IsPermutationOf(perm, n, draws[step], step) && Inverses(perm, inv, n)
  }

  /**
   * What was sent determines every correction: a change of Alice's key that none of the sent parities notices does
   * not touch a corrected bit, nor the parity of a block of any pass.
   */
  lemma DisclosedMeans(alice: Frame, bob: Frame, a0: State, b0: State, k1: nat, k2: nat, passes: nat,
                       draws: seq<seq<nat>>, largest: nat)
    requires Passing(alice, bob, a0, b0, k1, k2, passes, draws, largest) && |draws| > passes
    ensures AllPlaced(alice.sent, |alice.key|, passes, draws)
    ensures forall e: seq<bool> :: |e| == |alice.key| && Unnoticed(e, alice.sent) ==>
      KeepsBits(e, alice.corrected) && EvenPasses(e, k1, k2, passes, draws)
  {
    hide Linked, Bounded, CeilLog, FirstParities, Repairs, IsPermutationOf, EvenPasses, Unnoticed, KeepsBlocks;
    var a, n := alice.View(), |alice.key|;
    SentPlaced(a, bob.View(), k1, k2, passes, draws);
    forall e: seq<bool> | |e| == n && Unnoticed(e, a.sent)
      ensures KeepsBits(e, a.corrected) && EvenPasses(e, k1, k2, passes, draws)
    {
      assert KeepsAll(e, a);
      forall step | 1 <= step <= passes
        ensures EvenPass(e, BlockSize(n, k1, k2, step), draws[step], step)
      {
        CheckerIsPass(a, bob.View(), k1, k2, draws, step - 1);
        PositiveSize(n, k1, k2, step);
        KeptPass(e, a.checkers[step - 1], BlockSize(n, k1, k2, step), draws[step], step);
      }
      PassesLiteral(e, k1, k2, passes, draws);
    }
  }

  lemma SentPlaced(a: State, b: State, k1: nat, k2: nat, passes: nat, draws: seq<seq<nat>>)
    requires Joint(a, b) && Partitioned(a, |a.key|, k1, k2, draws) && Placed(a) && |a.checkers| == passes < |draws|
    ensures AllPlaced(a.sent, |a.key|, passes, draws)
  {
    hide Joint, Partitioned, IsPermutationOf, Inverses;
    forall t | 0 <= t < |a.sent|
      ensures PlacedAt(a.sent[t], |a.key|, passes, draws)
    {
      var i :| 0 <= i < |a.checkers| && a.sent[t].inv == a.checkers[i].inv;
      CheckerIsPass(a, b, k1, k2, draws, i);
      assert OrderOf(a.checkers[i].perm, a.sent[t].inv, |a.key|, draws, i + 1);
    }
  }

  lemma CheckerIsPass(a: State, b: State, k1: nat, k2: nat, draws: seq<seq<nat>>, i: nat)
    requires Joint(a, b) && Partitioned(a, |a.key|, k1, k2, draws) && i < |a.checkers|
    ensures Good(a.checkers[i], |a.key|) && i + 1 < |draws|
    ensures IsPass(a.checkers[i], |a.key|, BlockSize(|a.key|, k1, k2, i + 1), draws[i + 1], i + 1)
  {
    assert PassAt(a, |a.key|, k1, k2, draws, i);
    assert Linked(a.checkers[i], b.checkers[i], a, b);
  }

  lemma KeptPass(e: seq<bool>, c: Checker, k: nat, draws: seq<nat>, step: nat)
    requires Good(c, |e|) && KeepsBlocks(e, c) && k >= 1 && IsPass(c, |e|, k, draws, step)
    ensures EvenPass(e, k, draws, step)
  {
    hide Par, Tiles, Starts;
    forall perm, inv, j: nat | Inverses(perm, inv, |e|) && IsPermutationOf(perm, |e|, draws, step) && j * k < |e|
      ensures BlockAt(|e|, k, j).End() <= |e|
      ensures !Par(Permuted(e, inv), BlockAt(|e|, k, j).offset, BlockAt(|e|, k, j).End())
    {
      InverseUnique(perm, inv, c.inv, |e|);
      forall b | b in c.blocks
        ensures b.End() <= |e| && !Par(Permuted(e, inv), b.offset, b.End())
      {
        assert Keeps(e, Question(c.inv, b));
        BlockInside(c.blocks, |e|, b);
      }
      BlockEven(c.blocks, Permuted(e, inv), k, j);
    }
  }

  lemma BlockInside(blocks: set<Block>, n: nat, b: Block)
    requires Tiles(blocks, n) && b in blocks
    ensures b.End() <= n
  {}

  lemma PassedMeans(alice: Frame, bob: Frame, a0: State, b0: State, k1: nat, k2: nat, passes: nat,
                    draws: seq<seq<nat>>, largest: nat)
    requires Passing(alice, bob, a0, b0, k1, k2, passes, draws, largest) && NoOddBlock(alice) && a0.corrected == {}
    ensures |alice.key| == |bob.key| == |a0.key| == |b0.key|
    ensures alice.key == a0.key && alice.corrected == bob.corrected
    ensures alice.transmitted == bob.transmitted == |alice.sent|
    ensures forall p :: p in bob.corrected ==> p < |a0.key| && a0.key[p] != b0.key[p]
    ensures forall p: nat :: p < |a0.key| ==>
      bob.key[p] == if p in bob.corrected then a0.key[p] else b0.key[p]
    ensures Weight(Xors(alice.key, bob.key)) + |bob.corrected| == Weight(Xors(a0.key, b0.key))
    ensures passes >= 1 ==> Weight(Xors(alice.key, bob.key)) % 2 == 0
    ensures GoodSizes(|alice.key|, k1, k2) && (|draws| > passes || passes == 0)
    ensures forall step :: 1 <= step <= passes ==>
      EvenPass(Xors(alice.key, bob.key), BlockSize(|alice.key|, k1, k2, step), draws[step], step)
    ensures alice.transmitted <= FirstParities(|alice.key|, k1, k2, passes) + |alice.corrected| * CeilLog(largest)
  {
    hide Weight, Linked, Bounded, EvenPass, BlockSize, Partitioned, CeilLog, FirstParities;
    EvenAfterPass(alice, bob);
    PassesEven(alice, bob, k1, k2, passes, draws);
  }

  /** In the order of the pass, every block of size k holds an even number of disagreements. */
  ghost predicate EvenPass(d: seq<bool>, k: nat, draws: seq<nat>, step: nat) {
    forall perm, inv, j: nat :: Inverses(perm, inv, |d|) && IsPermutationOf(perm, |d|, draws, step) && j * k < |d| ==>
      BlockAt(|d|, k, j).End() <= |d| && !Par(Permuted(d, inv), BlockAt(|d|, k, j).offset, BlockAt(|d|, k, j).End())
  }

  lemma PassesEven(alice: Frame, bob: Frame, k1: nat, k2: nat, passes: nat, draws: seq<seq<nat>>)
    requires Ready(alice, bob) && NoOddBlock(alice) && |alice.checkers| == passes && |alice.key| == |bob.key|
    requires Partitioned(alice.View(), |alice.key|, k1, k2, draws) && GoodSizes(|alice.key|, k1, k2)
    ensures |draws| > passes || passes == 0
    ensures forall step :: 1 <= step <= passes ==>
      EvenPass(Xors(alice.key, bob.key), BlockSize(|alice.key|, k1, k2, step), draws[step], step)
  {
    hide EvenPass, BlockSize, Linked, IsPass;
    var a, b := alice.View(), bob.View();
    if passes > 0 { assert PassAt(a, |alice.key|, k1, k2, draws, passes - 1); }
    forall step | 1 <= step <= passes
      ensures EvenPass(Xors(alice.key, bob.key), BlockSize(|alice.key|, k1, k2, step), draws[step], step)
    {
      assert a.checkers[step - 1].odd == {} && PassAt(a, |alice.key|, k1, k2, draws, step - 1);
      PositiveSize(|alice.key|, k1, k2, step);
      PassEven(a, b, step - 1, BlockSize(|alice.key|, k1, k2, step), draws[step], step);
    }
  }

  lemma PassEven(a: State, b: State, i: nat, k: nat, draws: seq<nat>, step: nat)
    requires Joint(a, b) && i < |a.checkers| && a.checkers[i].odd == {} && k >= 1
    requires IsPass(a.checkers[i], |a.key|, k, draws, step)
    ensures EvenPass(Differences(a, b), k, draws, step)
  {
    hide Par, Tiles, Starts;
    var c, n := a.checkers[i], |a.key|;
    assert Linked(c, b.checkers[i], a, b);
    forall perm, inv, j: nat | Inverses(perm, inv, n) && IsPermutationOf(perm, n, draws, step) && j * k < n
      ensures BlockAt(n, k, j).End() <= n
      ensures !Par(Permuted(Differences(a, b), inv), BlockAt(n, k, j).offset, BlockAt(n, k, j).End())
    {
      InverseUnique(perm, inv, c.inv, n);
      forall x | x in c.blocks
        ensures x.End() <= n && !Par(Permuted(Differences(a, b), inv), x.offset, x.End())
      {
        assert x !in OddOf(c.blocks);
      }
      BlockEven(c.blocks, Permuted(Differences(a, b), inv), k, j);
    }
  }

  lemma BlockEven(blocks: set<Block>, d: seq<bool>, k: nat, j: nat)
    requires Tiles(blocks, |d|) && BlockStarts(blocks, |d|, k)
    requires forall x :: x in blocks ==> x.End() <= |d| && !Par(d, x.offset, x.End())
    requires k >= 1 && j * k < |d|
    ensures BlockAt(|d|, k, j).End() <= |d| && !Par(d, BlockAt(|d|, k, j).offset, BlockAt(|d|, k, j).End())
  {
    hide Par, Tiles, Starts;
    var b := BlockAt(|d|, k, j);
    if b.End() < |d| {
      assert (j + 1) * k == j * k + k;
      assert BlockAt(|d|, k, j + 1).offset == b.End();
    }
    AllEven(blocks, d, b.offset);
    AllEven(blocks, d, b.End());
    ParSplit(d, b.offset, b.End(), |d|);
  }
}
