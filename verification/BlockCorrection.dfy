/** Correction of all odd blocks of one checker by bisection, both parties in step. */
module BlockCorrection {
  import opened Parities
  import opened ParityBlocks
  import opened CascadeStates
  import opened CascadeFrame
  import opened ParityExchange
  import opened Disclosures

  /** Bob's key has changed exactly on the newly corrected bits, and each of them was a disagreement. */
  ghost predicate Repairs(a0: State, b0: State, a1: State, b1: State) {
    && |a0.key| == |b0.key| == |b1.key| && a1.key == a0.key
    && a0.corrected <= a1.corrected
    && (forall p :: p in a1.corrected && p !in a0.corrected ==> p < |a0.key| && a0.key[p] != b0.key[p])
    && (forall p: nat :: p < |a0.key| ==>
          b1.key[p] == if p in a1.corrected && p !in a0.corrected then a0.key[p] else b0.key[p])
    && Weight(Differences(a1, b1)) + |a1.corrected| == Weight(Differences(a0, b0)) + |a0.corrected|
  }

  lemma NoRepairs(a0: State, b0: State, a1: State, b1: State)
    requires |a0.key| == |b0.key| && a1.key == a0.key && b1.key == b0.key && a1.corrected == a0.corrected
    ensures Repairs(a0, b0, a1, b1)
  {}

  lemma RepairsMore(a0: State, b0: State, a1: State, b1: State, a2: State, b2: State)
    requires Repairs(a0, b0, a1, b1) && Repairs(a1, b1, a2, b2)
    ensures Repairs(a0, b0, a2, b2)
  {
    hide Weight;
  }

  lemma FixRepairs(a: State, b: State, p: nat)
    requires Joint(a, b) && p < |a.key| && a.key[p] != b.key[p]
    ensures AllGood(a) && AllGood(b) && p !in a.corrected
    ensures Repairs(a, b, FixedAlice(a, p), FixedBob(b, p))
    ensures |FixedAlice(a, p).corrected| == |a.corrected| + 1
  {
    hide Weight, Good, FixedAlice, FixedBob;
    JointGood(a, b);
    FixJoint(a, b, p);
    FixedFields(a, b, p);
    hide Joint;
    assert |a.corrected + {p}| == |a.corrected| + 1;
  }

  lemma FixedFields(a: State, b: State, p: nat)
    requires Joint(a, b) && AllGood(a) && AllGood(b) && p < |a.key| && a.key[p] != b.key[p]
    ensures |a.key| == |b.key| && p !in a.corrected
    ensures FixedAlice(a, p).key == a.key && FixedAlice(a, p).corrected == a.corrected + {p}
    ensures FixedBob(b, p).key == b.key[p := a.key[p]]
  {
    hide Good, Linked, Marked;
  }

  /** No block of any checker is longer than k. */
  ghost predicate Bounded(s: State, k: nat) {
    forall j, b :: 0 <= j < |s.checkers| && b in s.checkers[j].blocks ==> b.size <= k
  }

  /** The blocks of one pass, divided further. */
  ghost predicate Refined(c: Checker, d: Checker) {
    c.perm == d.perm && c.inv == d.inv && forall x :: Starts(c.blocks, x) ==> Starts(d.blocks, x)
  }

  /** The same passes, with the same permutations. */
  ghost predicate SamePasses(s: State, t: State) {
    |s.checkers| == |t.checkers| && forall j :: 0 <= j < |s.checkers| ==> Refined(s.checkers[j], t.checkers[j])
  }

  /** Odd blocks are visited by size first, then by offset. */
  predicate Before(b: Block, c: Block) {
    b.size < c.size || (b.size == c.size && b.offset < c.offset)
  }

  ghost predicate Ordered(s: seq<Block>) {
    forall i, j :: 0 <= i < j < |s| ==> Before(s[i], s[j])
  }

  function Elems(s: seq<Block>): set<Block> {
    set b | b in s
  }

  lemma {:induction false} FirstExists(odd: set<Block>)
    requires odd != {} && forall b :: b in odd ==> b.diff
    ensures exists b :: b in odd && forall c :: c in odd ==> c == b || Before(b, c)
    decreases |odd|
  {
    var x :| x in odd;
    var rest := odd - {x};
    if rest == {} {
      assert odd == {x};
    } else {
      FirstExists(rest);
      var b :| b in rest && forall c :: c in rest ==> c == b || Before(b, c);
      var y := if Before(x, b) then x else b;
      assert forall c :: c in odd ==> c in rest || c == x;
      assert y in odd && forall c :: c in odd ==> c == y || Before(y, c);
    }
  }

  lemma OrderedAppend(s: seq<Block>, b: Block)
    requires Ordered(s) && forall c :: c in s ==> Before(c, b)
    ensures Ordered(s + [b]) && Elems(s + [b]) == Elems(s) + {b}
  {}

  lemma NothingOrdered()
    ensures Ordered([]) && Elems([]) == {}
  {}

  /** The odd blocks in the order of their set. */
  method InOrder(odd: set<Block>) returns (s: seq<Block>)
    requires forall b :: b in odd ==> b.diff
    ensures Ordered(s) && Elems(s) == odd
  {
    hide Ordered, Elems;
    s := [];
    var rest := odd;
    NothingOrdered();
    while rest != {}
      invariant rest <= odd && Elems(s) == odd - rest && Ordered(s)
      invariant forall b, c :: b in s && c in rest ==> Before(b, c)
      decreases |rest|
    {
      FirstExists(rest);
      var b :| b in rest && forall c :: c in rest ==> c == b || Before(b, c);
      OrderedAppend(s, b);
      s := s + [b];
      rest := rest - {b};
    }
  }

  lemma EmptyElems(s: seq<Block>)
    ensures Elems(s) == {} <==> s == []
  {
    if s != [] { assert s[0] in Elems(s); }
  }

  /** There is only one such order, so both parties use the same. */
  lemma {:induction false} OrderUnique(s: seq<Block>, t: seq<Block>)
    requires Ordered(s) && Ordered(t) && Elems(s) == Elems(t)
    ensures s == t
    decreases |s|
  {
    if s == [] || t == [] {
      EmptyElems(s);
      EmptyElems(t);
    } else {
      assert s[0] in Elems(t) && t[0] in Elems(s);
      assert s[0] == t[0];
      forall b
        ensures b in s[1..] <==> b in t[1..]
      {
        assert b in s[1..] <==> b in Elems(s) && b != s[0];
        assert b in t[1..] <==> b in Elems(t) && b != t[0];
      }
      OrderUnique(s[1..], t[1..]);
    }
  }

  /** How many more parities the bisection of these blocks can take. */
  function Effort(s: seq<Block>): nat {
    if s == [] then 0 else Effort(s[..|s| - 1]) + CeilLog(s[|s| - 1].size)
  }

  lemma {:induction false} EffortErase(s: seq<Block>, t: nat)
    requires t < |s|
    ensures Effort(s[..t] + s[t + 1..]) <= Effort(s)
    decreases |s|
  {
    var l := |s| - 1;
    if t < l {
      EffortErase(s[..l], t);
      assert (s[..t] + s[t + 1..])[..l - 1] == s[..l][..t] + s[..l][t + 1..];
    } else {
      assert s[..t] + s[t + 1..] == s[..l];
    }
  }

  lemma {:induction false} EffortHalved(s: seq<Block>, t: nat, h: Block)
    requires t < |s| && s[t].size > 1 && h.size <= (s[t].size + 1) / 2
    ensures Effort(s[t := h]) + 1 <= Effort(s)
    decreases |s|
  {
    var l := |s| - 1;
    if t < l {
      EffortHalved(s[..l], t, h);
      assert s[t := h][..l] == s[..l][t := h];
    } else {
      CeilLogMonotone(h.size, (s[t].size + 1) / 2);
      assert s[t := h][..l] == s[..l];
    }
  }

  /** How many more parities the bisection of these blocks takes at least, when none of their bits is known. */
  function LeastEffort(s: seq<Block>): nat {
    if s == [] then 0 else LeastEffort(s[..|s| - 1]) + FloorLog(s[|s| - 1].size)
  }

  lemma {:induction false} LeastErase(s: seq<Block>, t: nat)
    requires t < |s|
    ensures LeastEffort(s) == LeastEffort(s[..t] + s[t + 1..]) + FloorLog(s[t].size)
    decreases |s|
  {
    var l := |s| - 1;
    if t < l {
      LeastErase(s[..l], t);
      assert (s[..t] + s[t + 1..])[..l - 1] == s[..l][..t] + s[..l][t + 1..];
    } else {
      assert s[..t] + s[t + 1..] == s[..l];
    }
  }

  lemma {:induction false} LeastHalved(s: seq<Block>, t: nat, h: Block)
    requires t < |s| && s[t].size > 1 && h.size >= s[t].size / 2
    ensures LeastEffort(s[t := h]) + 1 >= LeastEffort(s)
    decreases |s|
  {
    var l := |s| - 1;
    if t < l {
      LeastHalved(s[..l], t, h);
      assert s[t := h][..l] == s[..l][t := h];
    } else {
      FloorLogMonotone(s[t].size / 2, h.size);
      assert s[t := h][..l] == s[..l];
    }
  }

  /** The order of the blocks does not matter. */
  lemma {:induction false} LeastSame(s: seq<Block>, t: seq<Block>)
    requires NoDuplicates(s) && NoDuplicates(t) && Elems(s) == Elems(t)
    ensures LeastEffort(s) == LeastEffort(t)
    decreases |s|
  {
    hide LeastEffort, FloorLog, NoDuplicates, Elems;
    if s == [] {
      EmptyElems(s);
      EmptyElems(t);
    } else {
      var l := |s| - 1;
      InElems(s, s[l]);
      InElems(t, s[l]);
      var j :| 0 <= j < |t| && t[j] == s[l];
      var rest := t[..j] + t[j + 1..];
      ElemsErase(s, l);
      ElemsErase(t, j);
      LeastErase(s, l);
      LeastErase(t, j);
      LeastSame(s[..l] + s[l + 1..], rest);
    }
  }

  ghost predicate AllUntouched(s: seq<Block>, correct: set<nat>) {
    forall j :: 0 <= j < |s| ==> Untouched(s[j], correct)
  }

  lemma OneMore(n: nat, c: nat)
    ensures n * c + c == (n + 1) * c
  {}

  lemma {:induction false} EffortBound(s: seq<Block>, k: nat)
    requires forall b :: b in s ==> b.size <= k
    ensures Effort(s) <= |s| * CeilLog(k)
  {
    hide CeilLog;
    if s != [] {
      EffortBound(s[..|s| - 1], k);
      CeilLogMonotone(s[|s| - 1].size, k);
      OneMore(|s| - 1, CeilLog(k));
    }
  }

  ghost predicate NoDuplicates(s: seq<Block>) {
    forall i, j :: 0 <= i < j < |s| ==> s[i] != s[j]
  }

  lemma {:induction false} OrderedElems(s: seq<Block>)
    requires Ordered(s)
    ensures NoDuplicates(s) && |Elems(s)| == |s|
  {
    if s == [] {
      assert Elems(s) == {};
    } else {
      OrderedElems(s[1..]);
      assert Elems(s) == Elems(s[1..]) + {s[0]};
    }
  }

  lemma ElemsErase(s: seq<Block>, t: nat)
    requires NoDuplicates(s) && t < |s|
    ensures var r := s[..t] + s[t + 1..]; NoDuplicates(r) && Elems(r) == Elems(s) - {s[t]}
  {
    var r := s[..t] + s[t + 1..];
    forall b
      ensures b in r <==> b in s && b != s[t]
    {
      if b in s && b != s[t] {
        var i :| 0 <= i < |s| && s[i] == b;
        assert r[if i < t then i else i - 1] == b;
      }
    }
  }

  lemma ElemsUpdate(s: seq<Block>, t: nat, h: Block)
    requires NoDuplicates(s) && t < |s| && h !in s
    ensures NoDuplicates(s[t := h]) && Elems(s[t := h]) == Elems(s) - {s[t]} + {h}
  {
    var r := s[t := h];
    forall b
      ensures b in r <==> (b in s && b != s[t]) || b == h
    {
      assert r[t] == h;
      if b in s && b != s[t] {
        var i :| 0 <= i < |s| && s[i] == b;
        assert r[i] == b;
      }
    }
  }

  ghost predicate OddBlock(s: State, i: nat, w: Block) {
    i < |s.checkers| && w in s.checkers[i].odd && w in s.checkers[i].blocks && w.diff && w.size >= 1
    && w.End() <= |s.key| == |s.checkers[i].inv|
  }

  lemma OddIsBlock(a: State, b: State, i: nat, w: Block)
    requires Joint(a, b) && i < |a.checkers| && w in a.checkers[i].odd
    ensures OddBlock(a, i, w) && OddBlock(b, i, w)
  {
    assert Linked(a.checkers[i], b.checkers[i], a, b);
  }

  /** A single odd bit is a disagreement, and correcting it takes its block out of the odd ones. */
  lemma SingleOddBit(a: State, b: State, i: nat, w: Block)
    requires Joint(a, b) && OddBlock(a, i, w) && w.size == 1
    ensures AllGood(a) && AllGood(b) && i < |b.checkers| && a.checkers[i].inv == b.checkers[i].inv
    ensures var p := a.checkers[i].inv[w.offset];
      && p < |a.key| && a.key[p] != b.key[p]
      && FixedAlice(a, p).checkers[i].odd == a.checkers[i].odd - {w}
      && FixedAlice(a, p).checkers[i].correct == a.checkers[i].correct + {w.offset}
  {
    hide Par, Tiles, Faithful, ToggledAt;
    JointGood(a, b);
    var c := a.checkers[i];
    assert Linked(c, b.checkers[i], a, b);
    var d := Permuted(Differences(a, b), c.inv);
    assert Par(d, w.offset, w.offset + 1) == d[w.offset] by { SingleParity(d, w.offset); }
    AroundIs(c.blocks, |a.key|, w.offset, w);
    ToggledOdd(c.blocks, |a.key|, w.offset);
  }

  lemma SingleParity(d: seq<bool>, q: nat)
    requires q < |d|
    ensures Par(d, q, q + 1) == d[q]
  {}

  lemma RemoteRefined(c: Checker, n: nat, p: nat)
    requires Good(c, n) && p < n
    ensures Refined(c, Remote(c, n, p))
  {
    hide Tiles, ToggledAt, Starts;
    forall x | Starts(c.blocks, x)
      ensures Starts(Remote(c, n, p).blocks, x)
    {
      StartsKept(c.blocks, n, x);
    }
  }

  lemma SplitRefined(c: Checker, n: nat, b: Block, first: bool)
    requires Good(c, n) && b in c.blocks && b.size > 1
    ensures Refined(c, SplitChecker(c, b, first))
  {
    hide Tiles, Halves, Starts;
    forall x | Starts(c.blocks, x)
      ensures Starts(SplitChecker(c, b, first).blocks, x)
    {
      StartsKept(c.blocks, n, x);
    }
  }

  lemma FixKeeps(a: State, p: nat, k: nat)
    requires AllGood(a) && p < |a.key| && Bounded(a, k)
    ensures var t := FixedAlice(a, p); Bounded(t, k) && SamePasses(a, t) && t.sent == a.sent
  {
    BlocksFixed(a, p);
    forall j, b | 0 <= j < |a.checkers| && b in FixedAlice(a, p).checkers[j].blocks
      ensures b.size <= k
    {
      var c := a.checkers[j];
      assert Good(c, |a.key|);
      var around := Around(c.blocks, |a.key|, c.perm[p]);
      assert b in c.blocks || b == around.Toggled();
    }
  }

  lemma BlocksFixed(a: State, p: nat)
    requires AllGood(a) && p < |a.key|
    ensures var t := FixedAlice(a, p); SamePasses(a, t) && t.sent == a.sent
    ensures forall j :: 0 <= j < |a.checkers| ==>
      Good(a.checkers[j], |a.key|)
      && FixedAlice(a, p).checkers[j].blocks == ToggledAt(a.checkers[j].blocks, |a.key|, a.checkers[j].perm[p])
  {
    hide Tiles, OddOf, ToggledAt;
    var t := FixedAlice(a, p);
    forall j | 0 <= j < |a.checkers|
      ensures Refined(a.checkers[j], t.checkers[j])
      ensures t.checkers[j].blocks == ToggledAt(a.checkers[j].blocks, |a.key|, a.checkers[j].perm[p])
    {
      assert Good(a.checkers[j], |a.key|);
      assert Marked(Remote(a.checkers[j], |a.key|, p), {p}) == t.checkers[j];
      RemoteRefined(a.checkers[j], |a.key|, p);
    }
  }

  /** Both parties correct a single bit: Alice notes the change that Bob makes. */
  method FixBoth(alice: Frame, bob: Frame, i: nat, w: Block, ghost k: nat)
    requires Ready(alice, bob) && Bounded(alice.View(), k) && OddBlock(alice.View(), i, w) && w.size == 1
    modifies alice.Repr(), bob.Repr()
    ensures alice.checkers == old(alice.checkers) && bob.checkers == old(bob.checkers)
    ensures Ready(alice, bob) && Bounded(alice.View(), k)
    ensures Repairs(old(alice.View()), old(bob.View()), alice.View(), bob.View())
    ensures SamePasses(old(alice.View()), alice.View())
    ensures alice.transmitted == old(alice.transmitted) && alice.sent == old(alice.sent)
    ensures |alice.corrected| == old(|alice.corrected|) + 1
    ensures alice.checkers[i].odd == old(alice.checkers[i].odd) - {w}
    ensures alice.checkers[i].correct == old(alice.checkers[i].correct) + {w.offset}
  {
    hide Joint, Repairs, Bounded, AllGood, SamePasses, FixedAlice, FixedBob, Determined;
    ghost var a, b := alice.View(), bob.View();
    SingleOddBit(a, b, i, w);
    assert alice.checkers[i].View() == a.checkers[i] && bob.checkers[i].View() == b.checkers[i];
    var p, q := alice.checkers[i].inv[w.offset], bob.checkers[i].inv[w.offset];
    JointGood(a, b);
    FixJoint(a, b, p);
    FixRepairs(a, b, p);
    FixKeeps(a, p, k);
    SingleDetermined(a, i, w);
    AliceFixes(alice, p);
    BobFixes(bob, q);
    assert alice.View() == FixedAlice(a, p) && bob.View() == FixedBob(b, p);
    assert alice.Repr() == old(alice.Repr()) && bob.Repr() == old(bob.Repr());
    assert alice.View().checkers[i] == alice.checkers[i].View();
  }

  lemma SingleDetermined(a: State, i: nat, w: Block)
    requires Determined(a) && AllGood(a) && OddBlock(a, i, w) && w.size == 1
    ensures Determined(FixedAlice(a, a.checkers[i].inv[w.offset]))
  {
    hide Determined, FixedAlice;
    assert Good(a.checkers[i], |a.key|);
    FixDetermined(a, i, w);
  }

  method AliceFixes(alice: Frame, p: nat)
    requires alice.Valid() && AllGood(alice.View()) && p < |alice.key|
    modifies alice.Repr()
    ensures alice.Valid() && alice.checkers == old(alice.checkers)
    ensures alice.View() == FixedAlice(old(alice.View()), p)
  {
    hide AllGood, AllShaped, RemoteChange, Noted;
    ChangedShaped(alice.View(), p);
    ChangedSize(alice.View(), p);
    alice.NotifyBitChangeRemote(p);
    alice.NotifyCorrectBit(p);
  }

  method BobFixes(bob: Frame, p: nat)
    requires bob.Valid() && AllGood(bob.View()) && p < |bob.key|
    modifies bob.Repr()
    ensures bob.Valid() && bob.checkers == old(bob.checkers)
    ensures bob.View() == FixedBob(old(bob.View()), p)
  {
    hide AllGood, AllShaped, LocalChange, Noted;
    ChangedShaped(bob.View(), p);
    ChangedSize(bob.View(), p);
    bob.FlipBit(p);
    bob.NotifyCorrectBit(p);
  }

  lemma ChangedSize(s: State, p: nat)
    requires AllGood(s) && p < |s.key|
    ensures |RemoteChange(s, p).key| == |LocalChange(s, p).key| == |s.key|
  {}

  /** The truth about one half of a block. */
  ghost predicate TrueHalf(w: Block, answer: Block, d: seq<bool>) {
    && w.End() <= |d|
    && (answer == w.FirstHalf(answer.diff) || answer == w.SecondHalf(answer.diff))
    && answer.diff == Par(d, answer.offset, answer.End())
  }

  /** The answer about either half names the odd one, and says that a single bit in the other one is correct. */
  lemma TrueHalves(a: State, b: State, i: nat, w: Block, answer: Block)
    requires Joint(a, b) && OddBlock(a, i, w) && OddBlock(b, i, w) && w.size > 1
    requires Inverses(a.checkers[i].perm, a.checkers[i].inv, |a.key|)
    requires TrueHalf(w, answer, Permuted(Differences(a, b), a.checkers[i].inv))
    ensures var first, c := FirstIsOdd(w, answer), a.checkers[i];
      && first == Par(Permuted(Differences(a, b), c.inv), w.offset, w.FirstHalf(true).End())
      && FoundHalf(c, w, first) == FoundHalf(b.checkers[i], w, first)
      && forall p :: p in FoundHalf(c, w, first) ==> p < |a.key| && a.key[p] == b.key[p]
  {
    hide Par, Tiles, Faithful;
    assert Linked(a.checkers[i], b.checkers[i], a, b);
    var d := Permuted(Differences(a, b), a.checkers[i].inv);
    var m := w.FirstHalf(true).End();
    ParSplit(d, w.offset, m, w.End());
    SingleParity(d, EvenHalf(w, FirstIsOdd(w, answer)).offset);
  }

  lemma SplitKeeps(s: State, found: set<nat>, i: nat, w: Block, first: bool, k: nat)
    requires AllShaped(s) && Within(found, |s.key|) && OddBlock(s, i, w) && w.size > 1 && Bounded(s, k)
    requires AllGood(s)
    ensures |Noted(s, found).checkers| == |s.checkers|
    ensures var t := Split(Noted(s, found), i, w, first);
      && Bounded(t, k) && SamePasses(s, t) && t.sent == s.sent && t.key == s.key
      && t.corrected == s.corrected && |t.checkers| == |s.checkers|
  {
    hide Starts;
    assert Good(s.checkers[i], |s.key|);
    SplitRefined(s.checkers[i], |s.key|, w, first);
  }

  lemma OddInBlocks(blocks: set<Block>, b: Block)
    ensures b in OddOf(blocks) ==> b in blocks
  {}

  /** The bits that come to be known when a block is halved are in the even half. */
  lemma SplitCorrect(a: State, found: set<nat>, i: nat, w: Block, first: bool)
    requires AllShaped(a) && Within(found, |a.key|) && OddBlock(a, i, w) && w.size > 1
    requires found == FoundHalf(a.checkers[i], w, first)
    ensures |Noted(a, found).checkers| == |a.checkers|
    ensures forall q :: q in Split(Noted(a, found), i, w, first).checkers[i].correct ==>
      q in a.checkers[i].correct || EvenHalf(w, first).Covers(q)
  {
    hide Halves, OddOf;
    assert Shaped(a.checkers[i], |a.key|);
  }

  lemma SplitOdd(a: State, b: State, found: set<nat>, i: nat, w: Block, first: bool)
    requires Joint(a, b) && AllShaped(a) && Within(found, |a.key|) && OddBlock(a, i, w) && w.size > 1
    ensures |Noted(a, found).checkers| == |a.checkers|
    ensures Split(Noted(a, found), i, w, first).checkers[i].odd == a.checkers[i].odd - {w} + {OddHalf(w, first)}
    ensures OddHalf(w, first) !in a.checkers[i].odd
  {
    hide Par, Tiles, Faithful, Halves, OddOf;
    assert Linked(a.checkers[i], b.checkers[i], a, b);
    HalvesOdd(a.checkers[i].blocks, |a.key|, w, first);
    OddInBlocks(a.checkers[i].blocks, OddHalf(w, first));
  }

  /** Both parties put the halves in place of a block. */
  method SplitBoth(alice: Frame, bob: Frame, i: nat, w: Block, answerA: Block, answerB: Block, ghost k: nat)
    returns (nextA: Block, nextB: Block)
    requires Ready(alice, bob) && Bounded(alice.View(), k) && OddBlock(alice.View(), i, w) && w.size > 1
    requires answerA == answerB
    requires TrueHalf(w, answerA, Permuted(Differences(alice.View(), bob.View()), alice.checkers[i].inv))
    requires BlockTold(alice.View(), alice.checkers[i].inv, answerA)
    modifies alice.Repr(), bob.Repr()
    ensures alice.checkers == old(alice.checkers) && bob.checkers == old(bob.checkers)
    ensures Ready(alice, bob) && Bounded(alice.View(), k)
    ensures alice.key == old(alice.key) && bob.key == old(bob.key) && alice.corrected == old(alice.corrected)
    ensures SamePasses(old(alice.View()), alice.View())
    ensures alice.transmitted == old(alice.transmitted) && alice.sent == old(alice.sent)
    ensures nextA == nextB == OddHalf(w, FirstIsOdd(w, answerA)) && w.size / 2 <= nextA.size <= (w.size + 1) / 2
    ensures forall q :: q in alice.checkers[i].correct ==>
      q in old(alice.checkers[i].correct) || EvenHalf(w, FirstIsOdd(w, answerA)).Covers(q)
    ensures nextA !in old(alice.checkers[i].odd)
    ensures alice.checkers[i].odd == old(alice.checkers[i].odd) - {w} + {nextA}
  {
    hide Joint, Bounded, AllGood, SamePasses, Noted, Split, AllShaped, FoundHalf, FirstIsOdd, Par, Permuted;
    hide Determined, BlockTold;
    ghost var a, b, first := alice.View(), bob.View(), FirstIsOdd(w, answerA);
    JointShape(a, b, i);
    HalvesDetermined(a, b, i, w, answerA);
    SplitFacts(a, b, i, w, answerA, k);
    assert alice.checkers[i].View() == a.checkers[i] && bob.checkers[i].View() == b.checkers[i];
    ghost var foundA, foundB;
    nextA, foundA := alice.checkers[i].ReplaceByHalves(alice, i, w, answerA);
    assert bob.View() == b && bob.checkers[i].View() == b.checkers[i];
    nextB, foundB := bob.checkers[i].ReplaceByHalves(bob, i, w, answerB);
    assert alice.View() == Split(Noted(a, foundA), i, w, first) && bob.View() == Split(Noted(b, foundB), i, w, first);
    assert alice.Repr() == old(alice.Repr()) && bob.Repr() == old(bob.Repr());
    assert alice.View().checkers[i] == alice.checkers[i].View();
  }

  /** In place of a block come two blocks whose parities are determined too. */
  lemma HalvesDetermined(a: State, b: State, i: nat, w: Block, answer: Block)
    requires Joint(a, b) && Determined(a) && OddBlock(a, i, w) && w.size > 1
    requires BlockTold(a, a.checkers[i].inv, answer)
    requires answer == w.FirstHalf(answer.diff) || answer == w.SecondHalf(answer.diff)
    ensures AllShaped(a)
    ensures var first := FirstIsOdd(w, answer);
      var found := FoundHalf(a.checkers[i], w, first);
      Within(found, |a.key|) ==> i < |Noted(a, found).checkers| && Determined(Split(Noted(a, found), i, w, first))
  {
    hide Determined, BlockTold, Split, FirstIsOdd, Linked, Good;
    JointGood(a, b);
    var c, first := a.checkers[i], FirstIsOdd(w, answer);
    var found, even := FoundHalf(c, w, first), EvenHalf(w, first);
    if Within(found, |a.key|) {
      BlocksTold(a, i, w);
      HalvesTold(a, c.inv, w, answer);
      assert Shaped(c, |a.key|);
      if found != {} {
        SingleTold(a, c.perm, c.inv, even);
      } else {
        NoBitsTold(a);
      }
      NotedDetermined(a, found);
      ToldNoted(a, found, c.inv, w.FirstHalf(first));
      ToldNoted(a, found, c.inv, w.SecondHalf(!first));
      SplitDetermined(Noted(a, found), i, w, first);
    }
  }

  lemma NoBitsTold(s: State)
    ensures BitsTold(s, {})
  {}

  lemma JointShape(a: State, b: State, i: nat)
    requires Joint(a, b) && i < |a.checkers|
    ensures |a.key| == |b.key| && i < |b.checkers| && Inverses(a.checkers[i].perm, a.checkers[i].inv, |a.key|)
    ensures Attuned(a.checkers[i], b.checkers[i], a, b)
  {
    assert Linked(a.checkers[i], b.checkers[i], a, b);
  }

  lemma SplitFacts(a: State, b: State, i: nat, w: Block, answer: Block, k: nat)
    requires Joint(a, b) && Bounded(a, k) && OddBlock(a, i, w) && w.size > 1
    requires Inverses(a.checkers[i].perm, a.checkers[i].inv, |a.key|)
    requires |a.key| == |b.key| && TrueHalf(w, answer, Permuted(Differences(a, b), a.checkers[i].inv))
    ensures OddBlock(b, i, w) && AllGood(a) && AllGood(b) && AllShaped(a) && AllShaped(b)
    ensures
      var first := FirstIsOdd(w, answer);
      var found := FoundHalf(a.checkers[i], w, first);
      && found == FoundHalf(b.checkers[i], w, first)
      && Within(found, |a.key|)
      && i < |Noted(a, found).checkers| && i < |Noted(b, found).checkers|
      && var t := Split(Noted(a, found), i, w, first);
      && Joint(t, Split(Noted(b, found), i, w, first))
      && Bounded(t, k) && SamePasses(a, t) && t.sent == a.sent && t.key == a.key
      && Split(Noted(b, found), i, w, first).key == b.key
      && t.corrected == a.corrected && i < |t.checkers|
      && (forall q :: q in t.checkers[i].correct ==>
            q in a.checkers[i].correct || EvenHalf(w, first).Covers(q))
      && t.checkers[i].odd == a.checkers[i].odd - {w} + {OddHalf(w, first)}
      && OddHalf(w, first) !in a.checkers[i].odd
  {
    hide Bounded, SamePasses, Par, Tiles, Faithful, Linked, FirstIsOdd, FoundHalf, Permuted;
    JointGood(a, b);
    OddIsBlock(a, b, i, w);
    TrueHalves(a, b, i, w, answer);
    var first := FirstIsOdd(w, answer);
    var found := FoundHalf(a.checkers[i], w, first);
    NotedJoint(a, b, found);
    SplitKeeps(a, found, i, w, first, k);
    SplitOdd(a, b, found, i, w, first);
    SplitCorrect(a, found, i, w, first);
    SplitJoint(Noted(a, found), Noted(b, found), i, w, first);
  }

  lemma ComparedKeeps(a: State, told: seq<Question>, found: set<nat>, i: nat, k: nat)
    requires AllShaped(Sent(a, told)) && Within(found, |a.key|) && i < |a.checkers| && Bounded(a, k)
    ensures Noted(Sent(a, told), found).checkers[i].correct == a.checkers[i].correct + Images(a.checkers[i], found)
    ensures
      var t := Noted(Sent(a, told), found);
      && Bounded(t, k) && SamePasses(a, t) && t.key == a.key && t.corrected == a.corrected
      && t.sent == a.sent + told && t.checkers[i].odd == a.checkers[i].odd
  {}

  /** What was sent since: parities of blocks in one order of the bits. */
  ghost predicate SentMore(before: seq<Question>, after: seq<Question>, inv: seq<nat>) {
    before <= after && forall t :: |before| <= t < |after| ==> after[t].inv == inv
  }

  ghost predicate IsHalf(w: Block, h: Block) {
    w.size > 1 && (h == w.FirstHalf(false) || h == w.SecondHalf(false))
  }

  ghost predicate AreHalves(work: seq<Block>, asked: seq<Block>) {
    |work| == |asked| && forall j :: 0 <= j < |work| ==> IsHalf(work[j], asked[j])
  }

  /** The blocks still to be corrected are the odd blocks of checker i. */
  ghost predicate Working(alice: Frame, bob: Frame, i: nat, work: seq<Block>, k: nat)
    reads alice, alice.Repr(), bob, bob.Repr()
  {
    && Ready(alice, bob) && Bounded(alice.View(), k) && i < |alice.checkers|
    && alice.checkers[i].odd == Elems(work) && NoDuplicates(work)
  }

  lemma WorkingBlock(alice: Frame, bob: Frame, i: nat, work: seq<Block>, k: nat, t: nat)
    requires Working(alice, bob, i, work, k) && t < |work|
    ensures i < |bob.checkers| && OddBlock(alice.View(), i, work[t]) && OddBlock(bob.View(), i, work[t])
    ensures work[t].size >= 1 && work[t] in alice.checkers[i].odd
    ensures alice.checkers[i].SelectHalf(work[t]) == bob.checkers[i].SelectHalf(work[t])
    ensures alice.checkers[i].inv == bob.checkers[i].inv
  {
    hide Good, Faithful, Truthful, Bounded, CountIn;
    var a, b := alice.View(), bob.View();
    assert a.checkers[i] == alice.checkers[i].View();
    OddIsBlock(a, b, i, work[t]);
    assert Linked(a.checkers[i], b.checkers[i], a, b);
    assert b.checkers[i] == bob.checkers[i].View();
  }

  lemma NothingYet(alice: Frame, bob: Frame)
    requires Ready(alice, bob)
    ensures Repairs(alice.View(), bob.View(), alice.View(), bob.View()) && SamePasses(alice.View(), alice.View())
  {}

  /** Single bits are corrected and leave the list; for every other block a half is chosen. */
  method ChooseHalves(alice: Frame, bob: Frame, i: nat, blocks: seq<Block>, ghost k: nat)
    returns (work: seq<Block>, askedA: seq<Block>, askedB: seq<Block>)
    requires Working(alice, bob, i, blocks, k)
    modifies alice.Repr(), bob.Repr()
    ensures alice.checkers == old(alice.checkers) && bob.checkers == old(bob.checkers)
    ensures Working(alice, bob, i, work, k)
    ensures Repairs(old(alice.View()), old(bob.View()), alice.View(), bob.View())
    ensures SamePasses(old(alice.View()), alice.View())
    ensures alice.transmitted == old(alice.transmitted) && alice.sent == old(alice.sent)
    ensures |alice.corrected| + |work| == old(|alice.corrected|) + |blocks|
    ensures Effort(work) <= Effort(blocks) && AreHalves(work, askedA) && askedA == askedB
    ensures LeastEffort(work) >= LeastEffort(blocks)
    ensures AllUntouched(blocks, old(alice.checkers[i].correct)) ==> AllUntouched(work, alice.checkers[i].correct)
  {
    hide LeastEffort, AllUntouched, FloorLog, Apart;
    hide Ready, Bounded, Repairs, SamePasses, Elems, NoDuplicates, Effort, OddBlock;
    ghost var a0, b0 := alice.View(), bob.View();
    work, askedA, askedB := blocks, [], [];
    var t := 0;
    NothingYet(alice, bob);
    while t < |work|
      invariant t <= |work| && |askedA| == t && askedA == askedB
      invariant alice.checkers == old(alice.checkers) && bob.checkers == old(bob.checkers)
      invariant Working(alice, bob, i, work, k)
      invariant Repairs(a0, b0, alice.View(), bob.View()) && SamePasses(a0, alice.View())
      invariant alice.transmitted == old(alice.transmitted) && alice.sent == old(alice.sent)
      invariant |alice.corrected| + |work| == old(|alice.corrected|) + |blocks|
      invariant Effort(work) <= Effort(blocks) && LeastEffort(work) >= LeastEffort(blocks)
      invariant AllUntouched(blocks, old(alice.checkers[i].correct)) ==> AllUntouched(work, alice.checkers[i].correct)
      invariant forall j :: 0 <= j < t ==> IsHalf(work[j], askedA[j])
      decreases |work| - t
    {
      WorkingBlock(alice, bob, i, work, k, t);
      if work[t].size > 1 {
        askedA := askedA + [alice.checkers[i].SelectHalf(work[t])];
        askedB := askedB + [bob.checkers[i].SelectHalf(work[t])];
        t := t + 1;
      } else {
        ghost var a, b := alice.View(), bob.View();
        WorkApart(alice, bob, i, work, k);
        if AllUntouched(work, alice.checkers[i].correct) { EraseUntouched(work, alice.checkers[i].correct, t); }
        LeastErase(work, t);
        SingleLeast(work[t]);
        FixBoth(alice, bob, i, work[t], k);
        RepairsMore(a0, b0, a, b, alice.View(), bob.View());
        SamePassesMore(a0, a, alice.View());
        ElemsErase(work, t);
        EffortErase(work, t);
        work := work[..t] + work[t + 1..];
      }
    }
  }

  lemma SingleLeast(b: Block)
    ensures b.size <= 1 ==> FloorLog(b.size) == 0
  {}

  /** No two blocks of the list have a bit in common. */
  ghost predicate Apart(work: seq<Block>) {
    forall t, j, q: nat :: 0 <= t < |work| && 0 <= j < |work| && t != j && work[t].Covers(q) ==> !work[j].Covers(q)
  }

  lemma WorkApart(alice: Frame, bob: Frame, i: nat, work: seq<Block>, k: nat)
    requires Working(alice, bob, i, work, k)
    ensures Apart(work)
  {
    hide Ready, Bounded;
    WorkTiles(alice, bob, i);
    forall t, j, q: nat | 0 <= t < |work| && 0 <= j < |work| && t != j && work[t].Covers(q)
      ensures !work[j].Covers(q)
    {
      WorkingBlock(alice, bob, i, work, k, t);
      WorkingBlock(alice, bob, i, work, k, j);
    }
  }

  lemma WorkTiles(alice: Frame, bob: Frame, i: nat)
    requires Ready(alice, bob) && i < |alice.checkers|
    ensures Tiles(alice.checkers[i].blocks, |alice.key|)
  {
    hide Tiles;
    assert alice.View().checkers[i] == alice.checkers[i].View();
    assert Linked(alice.View().checkers[i], bob.View().checkers[i], alice.View(), bob.View());
  }

  /** Knowing a bit of one block leaves the others untouched. */
  lemma EraseUntouched(work: seq<Block>, correct: set<nat>, t: nat)
    requires Apart(work) && t < |work| && work[t].size == 1 && AllUntouched(work, correct)
    ensures AllUntouched(work[..t] + work[t + 1..], correct + {work[t].offset})
  {
    var rest := work[..t] + work[t + 1..];
    assert work[t].Covers(work[t].offset);
    forall j | 0 <= j < |rest|
      ensures Untouched(rest[j], correct + {work[t].offset})
    {
      var m := if j < t then j else j + 1;
      assert rest[j] == work[m] && Untouched(work[m], correct);
    }
  }

  lemma SamePassesMore(s: State, t: State, u: State)
    requires SamePasses(s, t) && SamePasses(t, u)
    ensures SamePasses(s, u)
  {
    hide Starts;
    forall j | 0 <= j < |s.checkers|
      ensures Refined(s.checkers[j], u.checkers[j])
    {
      assert Refined(s.checkers[j], t.checkers[j]) && Refined(t.checkers[j], u.checkers[j]);
    }
  }

  /** The answers tell the truth about a half of each block that is still to be replaced. */
  ghost predicate TrueAnswersFrom(work: seq<Block>, res: seq<Block>, d: seq<bool>, from: nat) {
    |work| == |res| && forall j :: from <= j < |work| ==> work[j].size > 1 && TrueHalf(work[j], res[j], d)
  }

  /** Compare the parities of the chosen halves with the peer. */
  method CompareHalves(alice: Frame, bob: Frame, i: nat, work: seq<Block>, askedA: seq<Block>, askedB: seq<Block>,
                       ghost k: nat)
    returns (resA: seq<Block>, resB: seq<Block>)
    requires Working(alice, bob, i, work, k) && AreHalves(work, askedA) && askedA == askedB
    modifies alice.Repr(), bob.Repr()
    ensures alice.checkers == old(alice.checkers) && bob.checkers == old(bob.checkers)
    ensures Working(alice, bob, i, work, k) && resA == resB
    ensures alice.key == old(alice.key) && bob.key == old(bob.key) && alice.corrected == old(alice.corrected)
    ensures SamePasses(old(alice.View()), alice.View())
    ensures old(alice.transmitted) <= alice.transmitted <= old(alice.transmitted) + |work|
    ensures AllUntouched(work, old(alice.checkers[i].correct)) ==>
      alice.transmitted == old(alice.transmitted) + |work| && HalvesUntouched(work, resA, alice.checkers[i].correct, 0)
    ensures |alice.checkers[i].inv| == |alice.key| == |bob.key|
    ensures Inverses(alice.checkers[i].perm, alice.checkers[i].inv, |alice.key|)
    ensures TrueAnswersFrom(work, resA, Permuted(Differences(alice.View(), bob.View()), alice.checkers[i].inv), 0)
    ensures AnswersTold(alice.View(), alice.checkers[i].inv, resA)
    ensures SentMore(old(alice.sent), alice.sent, alice.checkers[i].inv)
  {
    hide BlockTold, Determined, Told, MarkAll, AllUntouched, HalvesUntouched, AmongAsked, SameShape, Images, Apart;
    hide Joint, Bounded, SamePasses, Elems, NoDuplicates, Noted, Permuted, Answered, AllShaped, TrueAnswersFrom;
    ghost var a, b := alice.View(), bob.View();
    JointShape(a, b, i);
    assert alice.checkers[i].View() == a.checkers[i] && bob.checkers[i].View() == b.checkers[i];
    HalvesInside(alice, bob, i, work, askedA, k);
    ghost var found, told;
    resA, resB, found, told :=
      CalculateBlockDiffparities(alice, bob, alice.checkers[i], bob.checkers[i], askedA, askedB, false);
    SentShaped(a, told);
    SentShaped(b, told);
    ComparedKeeps(a, told, found, i, k);
    SentSame(b, told, found);
    assert alice.View().checkers[i] == alice.checkers[i].View();
    HalvesAnswered(work, askedA, resA, Permuted(Differences(a, b), a.checkers[i].inv));
    ToldMore(a.sent, a.checkers[i].inv, MarkAll(askedA, a.checkers[i].correct), false);
    AskedAnswersTold(alice.View(), a.checkers[i].inv, askedA, resA, Permuted(Differences(a, b), a.checkers[i].inv));
    AnsweredShape(askedA, resA, Permuted(Differences(a, b), a.checkers[i].inv));
    if AllUntouched(work, a.checkers[i].correct) {
      UntouchedCost(work, askedA, a.checkers[i]);
      WorkApart(alice, bob, i, work, k);
      ComparedUntouched(a.checkers[i], |a.key|, work, askedA, resA, found);
    }
  }

  /** The odd halves of the blocks from one on have no bit that is known to be correct. */
  ghost predicate HalvesUntouched(work: seq<Block>, res: seq<Block>, correct: set<nat>, from: nat) {
    |work| == |res| && forall j :: from <= j < |work| ==>
      Untouched(OddHalf(work[j], FirstIsOdd(work[j], res[j])), correct)
  }

  /** As long as nothing is known of the blocks every halving costs a parity. */
  lemma UntouchedCost(work: seq<Block>, asked: seq<Block>, c: Checker)
    requires AreHalves(work, asked) && AllUntouched(work, c.correct)
    ensures |Told(c.inv, MarkAll(asked, c.correct), false)| == |work|
  {
    forall j | 0 <= j < |asked|
      ensures asked[j].size >= 1 && Untouched(asked[j], c.correct)
    {
      assert IsHalf(work[j], asked[j]) && Untouched(work[j], c.correct);
    }
    AllCost(asked, c.correct, |asked|);
  }

  /** The bits that a comparison finds are in even halves. */
  lemma ComparedUntouched(c: Checker, n: nat, work: seq<Block>, asked: seq<Block>, res: seq<Block>, found: set<nat>)
    requires Apart(work) && AreHalves(work, asked) && SameShape(asked, res)
    requires AllUntouched(work, c.correct) && Shaped(c, n) && Within(found, n) && AmongAsked(found, res, c.inv)
    ensures HalvesUntouched(work, res, c.correct + Images(c, found), 0)
  {
    hide Images, Apart;
    forall j, q | 0 <= j < |work| && q in c.correct + Images(c, found)
      ensures !OddHalf(work[j], FirstIsOdd(work[j], res[j])).Covers(q)
    {
      assert IsHalf(work[j], asked[j]) && Untouched(work[j], c.correct);
      if q !in c.correct {
        var m := FoundAt(c, n, found, res, q);
        assert IsHalf(work[m], asked[m]) && work[m].Covers(q);
        if m != j { OnlyHere(work, m, j, q); }
      }
    }
  }

  lemma OnlyHere(work: seq<Block>, t: nat, j: nat, q: nat)
    requires Apart(work) && t < |work| && j < |work| && t != j && work[t].Covers(q)
    ensures !work[j].Covers(q)
  {}

  lemma FoundAt(c: Checker, n: nat, found: set<nat>, res: seq<Block>, q: nat) returns (m: nat)
    requires Shaped(c, n) && Within(found, n) && AmongAsked(found, res, c.inv) && q in Images(c, found)
    ensures m < |res| && res[m].size == 1 && !res[m].diff && res[m].offset == q
  {
    var p :| p in found && c.perm[p] == q;
    m :| 0 <= m < |res| && res[m].size == 1 && !res[m].diff && res[m].offset < |c.inv| && p == c.inv[res[m].offset];
  }

  /** The sent parities determine those of the halves that were compared. */
  ghost predicate AnswersTold(s: State, inv: seq<nat>, res: seq<Block>) {
    forall j :: 0 <= j < |res| ==> BlockTold(s, inv, res[j])
  }

  lemma AskedAnswersTold(s: State, inv: seq<nat>, asked: seq<Block>, res: seq<Block>, d: seq<bool>)
    requires Answered(asked, res, d) && forall j :: 0 <= j < |asked| ==> BlockTold(s, inv, asked[j])
    ensures AnswersTold(s, inv, res)
  {
    hide Par, Keeps, Unnoticed;
    forall j, e: seq<bool> | 0 <= j < |res| && |e| == |s.key| && Unnoticed(e, s.sent)
      ensures Keeps(e, Question(inv, res[j]))
    {
      assert BlockTold(s, inv, asked[j]);
      KeepsToggled(e, inv, asked[j], res[j]);
    }
  }

  lemma ToldMore(sent: seq<Question>, inv: seq<nat>, marked: seq<Block>, even: bool)
    ensures SentMore(sent, sent + Told(inv, marked, even), inv)
  {
    hide Chosen;
  }

  lemma SentSame(s: State, told: seq<Question>, found: set<nat>)
    requires AllShaped(Sent(s, told)) && Within(found, |s.key|)
    ensures Noted(Sent(s, told), found).key == s.key
  {}

  lemma HalvesInside(alice: Frame, bob: Frame, i: nat, work: seq<Block>, asked: seq<Block>, k: nat)
    requires Working(alice, bob, i, work, k) && AreHalves(work, asked)
    ensures forall j :: 0 <= j < |asked| ==>
      work[j].End() <= |alice.key| && 1 <= asked[j].size && asked[j].End() <= |alice.key|
  {
    hide Ready, Bounded;
    forall j | 0 <= j < |asked|
      ensures work[j].End() <= |alice.key| && 1 <= asked[j].size && asked[j].End() <= |alice.key|
    {
      WorkingBlock(alice, bob, i, work, k, j);
      assert IsHalf(work[j], asked[j]);
    }
  }

  lemma HalfAnswered(w: Block, h: Block, r: Block, d: seq<bool>)
    requires IsHalf(w, h) && w.End() <= |d| && h.End() <= |d| && r == h.(diff := Par(d, h.offset, h.End()))
    ensures w.size > 1 && TrueHalf(w, r, d)
  {
    hide Par;
    assert r.offset == h.offset && r.size == h.size && r.End() == h.End();
    if h == w.FirstHalf(false) {
      assert r == w.FirstHalf(r.diff);
    } else {
      assert r == w.SecondHalf(r.diff);
    }
  }

  lemma HalvesAnswered(work: seq<Block>, asked: seq<Block>, res: seq<Block>, d: seq<bool>)
    requires AreHalves(work, asked) && Answered(asked, res, d)
    requires forall j :: 0 <= j < |work| ==> work[j].End() <= |d|
    ensures TrueAnswersFrom(work, res, d, 0)
  {
    hide Par, IsHalf, TrueHalf;
    forall j | 0 <= j < |work|
      ensures work[j].size > 1 && TrueHalf(work[j], res[j], d)
    {
      HalfAnswered(work[j], asked[j], res[j], d);
    }
  }

  /** In place of every block of the list comes its odd half. */
  method SplitBlocks(alice: Frame, bob: Frame, i: nat, blocks: seq<Block>, resA: seq<Block>, resB: seq<Block>,
                     ghost k: nat)
    returns (work: seq<Block>)
    requires Working(alice, bob, i, blocks, k) && resA == resB && |alice.checkers[i].inv| == |alice.key| == |bob.key|
    requires Inverses(alice.checkers[i].perm, alice.checkers[i].inv, |alice.key|)
    requires TrueAnswersFrom(blocks, resA, Permuted(Differences(alice.View(), bob.View()), alice.checkers[i].inv), 0)
    requires AnswersTold(alice.View(), alice.checkers[i].inv, resA)
    modifies alice.Repr(), bob.Repr()
    ensures alice.checkers == old(alice.checkers) && bob.checkers == old(bob.checkers)
    ensures Working(alice, bob, i, work, k)
    ensures alice.key == old(alice.key) && bob.key == old(bob.key) && alice.corrected == old(alice.corrected)
    ensures SamePasses(old(alice.View()), alice.View())
    ensures alice.transmitted == old(alice.transmitted) && alice.sent == old(alice.sent)
    ensures |work| == |blocks| && Effort(work) + |work| <= Effort(blocks)
    ensures LeastEffort(work) + |work| >= LeastEffort(blocks)
    ensures HalvesUntouched(blocks, resA, old(alice.checkers[i].correct), 0) ==>
      AllUntouched(work, alice.checkers[i].correct)
  {
    hide LeastEffort, HalvesUntouched, AllUntouched, UntouchedTo, FirstIsOdd, Apart;
    hide Ready, Bounded, SamePasses, Elems, NoDuplicates, Effort, OddBlock, TrueHalf, Permuted, BlockTold;
    ghost var a0, d := alice.View(), Permuted(Differences(alice.View(), bob.View()), alice.checkers[i].inv);
    work := blocks;
    NothingYet(alice, bob);
    NoneSplitUntouched(blocks, resA, alice.checkers[i].correct);
    for t := 0 to |blocks|
      invariant |work| == |blocks| && TrueAnswersFrom(work, resA, d, t)
      invariant alice.checkers == old(alice.checkers) && bob.checkers == old(bob.checkers)
      invariant Working(alice, bob, i, work, k) && SamePasses(a0, alice.View())
      invariant alice.key == old(alice.key) && bob.key == old(bob.key) && alice.corrected == old(alice.corrected)
      invariant alice.transmitted == old(alice.transmitted) && alice.sent == old(alice.sent)
      invariant Effort(work) + t <= Effort(blocks) && LeastEffort(work) + t >= LeastEffort(blocks)
      invariant UntouchedTo(blocks, work, resA, old(alice.checkers[i].correct), alice.checkers[i].correct, t)
    {
      ToldStill(a0, alice.View(), alice.checkers[i].inv, resA[t]);
      WorkingBlock(alice, bob, i, work, k, t);
      ghost var a := alice.View();
      ghost var was := alice.checkers[i].correct;
      WorkApart(alice, bob, i, work, k);
      var nextA, nextB := SplitBoth(alice, bob, i, work[t], resA[t], resB[t], k);
      SamePassesMore(a0, a, alice.View());
      InElems(work, nextA);
      ElemsUpdate(work, t, nextA);
      EffortHalved(work, t, nextA);
      LeastHalved(work, t, nextA);
      UntouchedNext(blocks, work, resA, old(alice.checkers[i].correct), was, alice.checkers[i].correct, t);
      work := work[t := nextA];
    }
    AllSplitUntouched(blocks, work, resA, old(alice.checkers[i].correct), alice.checkers[i].correct);
  }

  /** The first t blocks are replaced by their odd halves; none of the odd halves has got a known bit. */
  ghost predicate UntouchedTo(blocks: seq<Block>, work: seq<Block>, res: seq<Block>, before: set<nat>,
                              correct: set<nat>, t: nat) {
    HalvesUntouched(blocks, res, before, 0) ==>
      && HalvesUntouched(work, res, correct, t)
      && forall j :: 0 <= j < t && j < |work| ==> Untouched(work[j], correct)
  }

  lemma NoneSplitUntouched(blocks: seq<Block>, res: seq<Block>, before: set<nat>)
    ensures UntouchedTo(blocks, blocks, res, before, before, 0)
  {}

  lemma AllSplitUntouched(blocks: seq<Block>, work: seq<Block>, res: seq<Block>, before: set<nat>, correct: set<nat>)
    requires UntouchedTo(blocks, work, res, before, correct, |work|)
    ensures HalvesUntouched(blocks, res, before, 0) ==> AllUntouched(work, correct)
  {
    hide Untouched;
  }

  /** Halving one block leaves its odd half and all other blocks untouched, whatever becomes known in the even half. */
  lemma UntouchedNext(blocks: seq<Block>, work: seq<Block>, res: seq<Block>, before: set<nat>, was: set<nat>,
                      correct: set<nat>, t: nat)
    requires Apart(work) && t < |work| == |res| && forall j :: t <= j < |work| ==> work[j].size > 1
    requires UntouchedTo(blocks, work, res, before, was, t)
    requires forall q :: q in correct ==> q in was || EvenHalf(work[t], FirstIsOdd(work[t], res[t])).Covers(q)
    ensures UntouchedTo(blocks, work[t := OddHalf(work[t], FirstIsOdd(work[t], res[t]))], res, before, correct, t + 1)
  {
    hide FirstIsOdd, HalvesUntouched, Untouched, Apart;
    if HalvesUntouched(blocks, res, before, 0) { UntouchedStep(work, res, was, correct, t); }
  }

  lemma UntouchedStep(work: seq<Block>, res: seq<Block>, was: set<nat>, correct: set<nat>, t: nat)
    requires Apart(work) && t < |work| == |res| && forall j :: t <= j < |work| ==> work[j].size > 1
    requires HalvesUntouched(work, res, was, t) && forall j :: 0 <= j < t ==> Untouched(work[j], was)
    requires forall q :: q in correct ==> q in was || EvenHalf(work[t], FirstIsOdd(work[t], res[t])).Covers(q)
    ensures var next := work[t := OddHalf(work[t], FirstIsOdd(work[t], res[t]))];
      && HalvesUntouched(next, res, correct, t + 1)
      && forall j :: 0 <= j < t + 1 ==> Untouched(next[j], correct)
  {
    hide FirstIsOdd, Apart;
    var next := work[t := OddHalf(work[t], FirstIsOdd(work[t], res[t]))];
    forall j, q | 0 <= j < |work| && q in correct
      ensures j <= t ==> !next[j].Covers(q)
      ensures j > t ==> !OddHalf(work[j], FirstIsOdd(work[j], res[j])).Covers(q)
    {
      if q !in was {
        assert work[t].Covers(q);
        if j != t { OnlyHere(work, t, j, q); }
      } else {
        assert j < t ==> Untouched(work[j], was);
        assert j >= t ==> Untouched(OddHalf(work[j], FirstIsOdd(work[j], res[j])), was);
      }
    }
  }

  lemma SentStillMore(x: seq<Question>, y: seq<Question>, z: seq<Question>, inv: seq<nat>)
    requires SentMore(x, y, inv) && SentMore(y, z, inv)
    ensures SentMore(x, z, inv)
  {}

  lemma NothingSent(x: seq<Question>, inv: seq<nat>)
    ensures SentMore(x, x, inv)
  {}

  /** Correct single bits, compare a half of every other block, and go on with the odd halves. */
  method CorrectRound(alice: Frame, bob: Frame, i: nat, blocks: seq<Block>, ghost k: nat) returns (work: seq<Block>)
    requires Working(alice, bob, i, blocks, k) && blocks != []
    modifies alice.Repr(), bob.Repr()
    ensures alice.checkers == old(alice.checkers) && bob.checkers == old(bob.checkers)
    ensures Working(alice, bob, i, work, k) && SamePasses(old(alice.View()), alice.View())
    ensures Repairs(old(alice.View()), old(bob.View()), alice.View(), bob.View())
    ensures |alice.corrected| + |work| == old(|alice.corrected|) + |blocks|
    ensures alice.transmitted + Effort(work) <= old(alice.transmitted) + Effort(blocks)
    ensures old(alice.transmitted) <= alice.transmitted && Effort(work) + |work| < Effort(blocks) + |blocks|
    ensures SentMore(old(alice.sent), alice.sent, alice.checkers[i].inv)
    ensures AllUntouched(blocks, old(alice.checkers[i].correct)) ==>
      && AllUntouched(work, alice.checkers[i].correct)
      && alice.transmitted + LeastEffort(work) >= old(alice.transmitted) + LeastEffort(blocks)
  {
    hide LeastEffort, AllUntouched, HalvesUntouched, AnswersTold, SentMore;
    hide Ready, Bounded, SamePasses, Repairs, Elems, NoDuplicates, Effort, Permuted, AreHalves, TrueAnswersFrom;
    ghost var a0, b0 := alice.View(), bob.View();
    var askedA, askedB, resA, resB;
    work, askedA, askedB := ChooseHalves(alice, bob, i, blocks, k);
    ghost var a1, b1 := alice.View(), bob.View();
    resA, resB := CompareHalves(alice, bob, i, work, askedA, askedB, k);
    SamePassesMore(a0, a1, alice.View());
    ghost var a2 := alice.View();
    work := SplitBlocks(alice, bob, i, work, resA, resB, k);
    SamePassesMore(a0, a2, alice.View());
    NoRepairs(a1, b1, alice.View(), bob.View());
    RepairsMore(a0, b0, a1, b1, alice.View(), bob.View());
  }

  lemma ToldStill(s: State, t: State, inv: seq<nat>, b: Block)
    requires t.key == s.key && t.sent == s.sent && BlockTold(s, inv, b)
    ensures BlockTold(t, inv, b)
  {}

  lemma InElems(s: seq<Block>, b: Block)
    ensures b in s <==> b in Elems(s)
  {}

  /**
   * Correct all odd blocks of checker i: as many disagreements go as there were odd blocks, each of them once,
   * at the cost of one parity for every halving.
   */
  method CorrectBlocks(alice: Frame, bob: Frame, i: nat, ghost k: nat)
    requires Ready(alice, bob) && Bounded(alice.View(), k) && i < |alice.checkers|
    modifies alice.Repr(), bob.Repr()
    ensures alice.checkers == old(alice.checkers) && bob.checkers == old(bob.checkers)
    ensures Ready(alice, bob) && Bounded(alice.View(), k) && SamePasses(old(alice.View()), alice.View())
    ensures Repairs(old(alice.View()), old(bob.View()), alice.View(), bob.View())
    ensures |alice.corrected| == old(|alice.corrected|) + old(|alice.checkers[i].odd|)
    ensures alice.checkers[i].odd == {}
    ensures alice.transmitted <= old(alice.transmitted) + old(|alice.checkers[i].odd|) * CeilLog(k)
    ensures old(alice.transmitted) <= alice.transmitted
    ensures SentMore(old(alice.sent), alice.sent, alice.checkers[i].inv)
    ensures forall s :: NoDuplicates(s) && Elems(s) == old(alice.checkers[i].odd)
                        && AllUntouched(s, old(alice.checkers[i].correct)) ==>
      alice.transmitted >= old(alice.transmitted) + LeastEffort(s)
  {
    hide LeastEffort, AllUntouched, HalvesUntouched;
    hide Ready, Bounded, SamePasses, Repairs, Elems, NoDuplicates, Effort, Permuted, AreHalves, TrueAnswersFrom;
    hide SentMore;
    NothingSent(alice.sent, alice.checkers[i].inv);
    ghost var a0, b0, total := alice.View(), bob.View(), |alice.corrected| + |alice.checkers[i].odd|;
    OddBothSides(alice, bob, i, k);
    var work := InOrder(alice.checkers[i].odd);
    var peers := InOrder(bob.checkers[i].odd);
    OrderUnique(work, peers);
    OrderedElems(work);
    StartEffort(work, alice.checkers[i].odd, k);
    ghost var budget := alice.transmitted + Effort(work);
    ghost var start, least := work, alice.transmitted + LeastEffort(work);
    ghost var untouched := AllUntouched(work, alice.checkers[i].correct);
    NothingYet(alice, bob);
    while work != []
      invariant alice.checkers == old(alice.checkers) && bob.checkers == old(bob.checkers)
      invariant Working(alice, bob, i, work, k)
      invariant Repairs(a0, b0, alice.View(), bob.View()) && SamePasses(a0, alice.View())
      invariant |alice.corrected| + |work| == total && alice.transmitted + Effort(work) <= budget
      invariant old(alice.transmitted) <= alice.transmitted
      invariant SentMore(old(alice.sent), alice.sent, alice.checkers[i].inv)
      invariant untouched ==>
        AllUntouched(work, alice.checkers[i].correct) && alice.transmitted + LeastEffort(work) >= least
      decreases Effort(work) + |work|
    {
      ghost var a1, b1, sent := alice.View(), bob.View(), alice.sent;
      work := CorrectRound(alice, bob, i, work, k);
      RepairsMore(a0, b0, a1, b1, alice.View(), bob.View());
      SamePassesMore(a0, a1, alice.View());
      SentStillMore(old(alice.sent), sent, alice.sent, alice.checkers[i].inv);
    }
    NothingOrdered();
    forall s | NoDuplicates(s) && Elems(s) == Elems(start) && AllUntouched(s, old(alice.checkers[i].correct))
      ensures untouched && LeastEffort(s) == LeastEffort(start)
    {
      LeastSame(s, start);
      SameUntouched(s, start, old(alice.checkers[i].correct));
    }
    NoLeast();
  }

  lemma NoLeast()
    ensures LeastEffort([]) == 0
  {}

  lemma SameUntouched(s: seq<Block>, t: seq<Block>, correct: set<nat>)
    requires Elems(s) == Elems(t) && AllUntouched(s, correct)
    ensures AllUntouched(t, correct)
  {
    forall j | 0 <= j < |t|
      ensures Untouched(t[j], correct)
    {
      assert t[j] in Elems(s);
    }
  }

  lemma OddBothSides(alice: Frame, bob: Frame, i: nat, k: nat)
    requires Ready(alice, bob) && Bounded(alice.View(), k) && i < |alice.checkers|
    ensures i < |bob.checkers| && alice.checkers[i].odd == bob.checkers[i].odd
    ensures forall b :: b in alice.checkers[i].odd ==> b.diff && b.size <= k
  {
    hide Good, Faithful, Truthful, Bounded;
    var a, b := alice.View(), bob.View();
    assert a.checkers[i] == alice.checkers[i].View();
    assert Linked(a.checkers[i], b.checkers[i], a, b);
    assert b.checkers[i] == bob.checkers[i].View();
    forall w | w in alice.checkers[i].odd
      ensures w.diff && w.size <= k
    {
      OddIsBlock(a, b, i, w);
      BoundedBlock(a, i, w, k);
    }
  }

  lemma BoundedBlock(s: State, i: nat, w: Block, k: nat)
    requires Bounded(s, k) && i < |s.checkers| && w in s.checkers[i].blocks
    ensures w.size <= k
  {}

  lemma StartEffort(work: seq<Block>, odd: set<Block>, k: nat)
    requires Elems(work) == odd && |work| == |odd| && forall b :: b in odd ==> b.size <= k
    ensures Effort(work) <= |odd| * CeilLog(k)
  {
    hide Effort, CeilLog;
    forall b | b in work
      ensures b.size <= k
    {
      assert b in Elems(work);
    }
    EffortBound(work, k);
  }
}
