/** Confirmation of corrected keys by comparing the parities of random selections of their bits. */
module Confirmation {
  import opened PowersOfTwo
  import opened Parities
  import opened Options

  datatype KeyState = Corrected | Confirmed | Disclosed

  /** A key with its bits; its size in bytes is an eighth of their number. */
  datatype Key = Key(id: nat, bits: seq<bool>, state: KeyState)

  datatype Message = Message(id: nat, size: nat, rounds: nat, masks: seq<seq<bool>>, parities: seq<bool>)

  function And(x: seq<bool>, y: seq<bool>): (z: seq<bool>)
    requires |x| == |y|
    ensures |z| == |x| && forall i :: 0 <= i < |x| ==> z[i] == (x[i] && y[i])
  {
    seq(|x|, i requires 0 <= i < |x| => x[i] && y[i])
  }

  /** The parity of the bits of the key that the mask selects. */
  function MaskedParity(mask: seq<bool>, bits: seq<bool>): bool
    requires |mask| == |bits|
  {
    Par(And(mask, bits), 0, |bits|)
  }

  ghost predicate AreMasks(masks: seq<seq<bool>>, n: nat) {
    forall i :: 0 <= i < |masks| ==> |masks[i]| == n
  }

  ghost predicate AreParities(masks: seq<seq<bool>>, bits: seq<bool>, parities: seq<bool>)
    requires AreMasks(masks, |bits|)
  {
    |parities| == |masks| && forall i :: 0 <= i < |masks| ==> parities[i] == MaskedParity(masks[i], bits)
  }

  /** What can arrive: as many masks and parities as there are rounds, masks of the announced size. */
  ghost predicate WellFormed(m: Message) {
    |m.masks| == |m.parities| == m.rounds && AreMasks(m.masks, m.size)
  }

  class Confirmer {
    var badKeys: nat
    var confirmedKeys: nat
    var rounds: nat

    constructor ()
      ensures badKeys == 0 && confirmedKeys == 0 && rounds == 10
    {
      badKeys, confirmedKeys, rounds := 0, 0, 10;
    }

    /** Parities of the key under each of the masks. */
    method ParitiesOf(bits: seq<bool>, masks: seq<seq<bool>>) returns (parities: seq<bool>)
      requires AreMasks(masks, |bits|)
      ensures AreParities(masks, bits, parities)
    {
      parities := [];
      for i := 0 to |masks|
        invariant |parities| == i
        invariant forall j :: 0 <= j < i ==> parities[j] == MaskedParity(masks[j], bits)
      {
        parities := parities + [MaskedParity(masks[i], bits)];
      }
    }

    method Compare(own: seq<bool>, peer: seq<bool>) returns (same: bool)
      requires |own| == |peer|
      ensures same <==> own == peer
    {
      same := true;
      for i := 0 to |own|
        invariant same <==> own[..i] == peer[..i]
      {
        assert own[..i + 1] == own[..i] + [own[i]] && peer[..i + 1] == peer[..i] + [peer[i]];
        same := same && own[i] == peer[i];
      }
      assert own[..|own|] == own && peer[..|peer|] == peer;
    }

    /** Count the key, and mark it when it is confirmed. */
    method Settle(key: Key, same: bool) returns (next: Key)
      modifies this
      ensures next == if same then key.(state := Confirmed) else key
      ensures confirmedKeys == old(confirmedKeys) + (if same then 1 else 0)
      ensures badKeys == old(badKeys) + (if same then 0 else 1) && rounds == old(rounds)
    {
      next := key;
      if !same {
        badKeys := badKeys + 1;
      } else {
        next := key.(state := Confirmed);
        confirmedKeys := confirmedKeys + 1;
      }
    }

    /** Alice draws a mask for every round and sends masks and parities. */
    method AliceSends(key: Key, masks: seq<seq<bool>>) returns (m: Message)
      requires |masks| == rounds && AreMasks(masks, |key.bits|)
      ensures WellFormed(m) && m.id == key.id && m.size == |key.bits| && m.masks == masks
      ensures AreParities(masks, key.bits, m.parities)
    {
      var parities := ParitiesOf(key.bits, masks);
      m := Message(key.id, |key.bits|, rounds, masks, parities);
    }

    /** Bob answers with his parities, or not at all when he works on another key. */
    method ProcessBob(key: Key, m: Message) returns (verdict: bool, next: Key, answer: Option<seq<bool>>)
      requires WellFormed(m)
      modifies this
      ensures rounds == m.rounds
      ensures key.id != m.id || |key.bits| != m.size ==>
        !verdict && next == key && answer == None
        && confirmedKeys == old(confirmedKeys) && badKeys == old(badKeys)
      ensures key.id == m.id && |key.bits| == m.size ==>
        && answer.Some? && AreParities(m.masks, key.bits, answer.value)
        && (verdict <==> answer.value == m.parities)
        && next == (if verdict then key.(state := Confirmed) else key)
        && confirmedKeys == old(confirmedKeys) + (if verdict then 1 else 0)
        && badKeys == old(badKeys) + (if verdict then 0 else 1)
    {
      rounds := m.rounds;
      if key.id != m.id || |key.bits| != m.size { return false, key, None; }
      var parities := ParitiesOf(key.bits, m.masks);
      verdict := Compare(parities, m.parities);
      answer := Some(parities);
      next := Settle(key, verdict);
    }

    /** Alice compares Bob's parities with her own; without an answer she cannot confirm. */
    method AliceConcludes(key: Key, own: seq<bool>, answer: Option<seq<bool>>) returns (verdict: bool, next: Key)
      requires answer.Some? ==> |answer.value| == |own|
      modifies this
      ensures verdict <==> answer == Some(own)
      ensures next == (if verdict then key.(state := Confirmed) else key) && rounds == old(rounds)
      ensures confirmedKeys == old(confirmedKeys) + (if verdict then 1 else 0)
      ensures badKeys == old(badKeys) + (if !verdict && answer.Some? then 1 else 0)
    {
      if answer == None { return false, key; }
      verdict := Compare(own, answer.value);
      next := Settle(key, verdict);
    }
  }

  /** The masks see no difference between the keys. */
  ghost predicate Agree(masks: seq<seq<bool>>, x: seq<bool>, y: seq<bool>)
    requires |x| == |y| && AreMasks(masks, |x|)
  {
    forall i :: 0 <= i < |masks| ==> MaskedParity(masks[i], x) == MaskedParity(masks[i], y)
  }

  /** Same id, same size, and no mask tells the keys apart. */
  ghost predicate Matching(masks: seq<seq<bool>>, a: Key, b: Key)
    requires AreMasks(masks, |a.bits|)
  {
    a.id == b.id && |a.bits| == |b.bits| && Agree(masks, a.bits, b.bits)
  }

  /**
   * Both sides work on their keys; disclosed keys pass as they are, without a message. The verdicts are the same
   * unless only one side has a disclosed key, and then the other side gets no answer and cannot confirm.
   */
  method Process(alice: Confirmer, bob: Confirmer, keyA: Key, keyB: Key, masks: seq<seq<bool>>)
    returns (verdictA: bool, nextA: Key, verdictB: bool, nextB: Key)
    requires alice != bob && |masks| == alice.rounds && AreMasks(masks, |keyA.bits|)
    modifies alice, bob
    ensures (keyA.state == Disclosed) == (keyB.state == Disclosed) <==> verdictA == verdictB
    ensures keyA.state == Disclosed ==> verdictA && nextA == keyA
    ensures keyB.state == Disclosed ==> verdictB && nextB == keyB
    ensures keyA.state != Disclosed ==>
      && (verdictA <==> keyB.state != Disclosed && Matching(masks, keyA, keyB))
      && nextA == if verdictA then keyA.(state := Confirmed) else keyA
    ensures keyB.state != Disclosed ==>
      && (verdictB <==> keyA.state != Disclosed && Matching(masks, keyA, keyB))
      && nextB == if verdictB then keyB.(state := Confirmed) else keyB
    ensures keyA.id == keyB.id && keyA.bits == keyB.bits && keyA.state == keyB.state ==> verdictA && verdictB
    ensures keyA.state != Disclosed && keyB.state != Disclosed ==>
      && alice.confirmedKeys - old(alice.confirmedKeys) == bob.confirmedKeys - old(bob.confirmedKeys)
         == (if verdictA then 1 else 0)
      && alice.badKeys - old(alice.badKeys) == bob.badKeys - old(bob.badKeys)
         == (if keyA.id == keyB.id && |keyA.bits| == |keyB.bits| && !verdictA then 1 else 0)
      && bob.rounds == alice.rounds == old(alice.rounds)
    ensures keyA.state == Disclosed || keyB.state == Disclosed ==>
      && alice.confirmedKeys == old(alice.confirmedKeys) && alice.badKeys == old(alice.badKeys)
      && bob.confirmedKeys == old(bob.confirmedKeys) && bob.badKeys == old(bob.badKeys)
  {
    hide MaskedParity;
    var m: Option<Message>, answer: Option<seq<bool>> := None, None;
    if keyA.state != Disclosed {
      var sent := alice.AliceSends(keyA, masks);
      m := Some(sent);
    }
    if keyB.state == Disclosed {
      verdictB, nextB := true, keyB;
    } else if m == None {
      verdictB, nextB := false, keyB;
    } else {
      verdictB, nextB, answer := bob.ProcessBob(keyB, m.value);
    }
    if keyA.state == Disclosed {
      verdictA, nextA := true, keyA;
    } else {
      verdictA, nextA := alice.AliceConcludes(keyA, m.value.parities, answer);
      if answer.Some? { AgreeParities(masks, keyA.bits, keyB.bits, m.value.parities, answer.value); }
    }
  }

  lemma AgreeParities(masks: seq<seq<bool>>, x: seq<bool>, y: seq<bool>, px: seq<bool>, py: seq<bool>)
    requires |x| == |y| && AreMasks(masks, |x|) && AreParities(masks, x, px) && AreParities(masks, y, py)
    ensures px == py <==> Agree(masks, x, y)
    ensures x == y ==> px == py
  {
    hide MaskedParity;
  }

  /** Two keys look different under a mask exactly when it selects an odd number of their differences. */
  lemma MaskedDifference(mask: seq<bool>, x: seq<bool>, y: seq<bool>)
    requires |mask| == |x| == |y|
    ensures (MaskedParity(mask, x) != MaskedParity(mask, y)) == MaskedParity(mask, Xors(x, y))
  {
    hide Par;
    assert And(mask, Xors(x, y)) == Xors(And(mask, x), And(mask, y));
    ParXors(And(mask, x), And(mask, y), 0, |x|);
  }

  /** The masks of X with one more bit. */
  ghost function Extended(X: set<seq<bool>>, b: bool): set<seq<bool>> {
    set x | x in X :: x + [b]
  }

  lemma InExtended(X: set<seq<bool>>, b: bool, z: seq<bool>)
    ensures z in Extended(X, b) <==> |z| > 0 && z[..|z| - 1] in X && z[|z| - 1] == b
  {
    if |z| > 0 { assert z == z[..|z| - 1] + [z[|z| - 1]]; }
    if z in Extended(X, b) {
      var x :| x in X && z == x + [b];
      assert z[..|z| - 1] == x;
    }
  }

  lemma {:induction false} CountExtended(X: set<seq<bool>>, b: bool)
    ensures |Extended(X, b)| == |X|
    decreases |X|
  {
    if X == {} {
      assert Extended(X, b) == {};
    } else {
      var x :| x in X;
      CountExtended(X - {x}, b);
      InExtended(X - {x}, b, x + [b]);
      assert (x + [b])[..|x|] == x;
      assert Extended(X, b) == Extended(X - {x}, b) + {x + [b]};
    }
  }

  /** The choices of X with one more mask from Y. */
  ghost function Extensions(X: set<seq<seq<bool>>>, Y: set<seq<bool>>): set<seq<seq<bool>>> {
    set x, y | x in X && y in Y :: x + [y]
  }

  lemma InExtensions(X: set<seq<seq<bool>>>, Y: set<seq<bool>>, z: seq<seq<bool>>)
    ensures z in Extensions(X, Y) <==> |z| > 0 && z[..|z| - 1] in X && z[|z| - 1] in Y
  {
    if |z| > 0 { assert z == z[..|z| - 1] + [z[|z| - 1]]; }
    if z in Extensions(X, Y) {
      var x, y :| x in X && y in Y && z == x + [y];
      assert z[..|z| - 1] == x;
    }
  }

  lemma NoExtensions(Y: set<seq<bool>>)
    ensures Extensions({}, Y) == {}
  {}

  lemma {:induction false} ExtensionsByOne(X: set<seq<seq<bool>>>, y: seq<bool>)
    ensures |Extensions(X, {y})| == |X|
    decreases |X|
  {
    hide Extensions;
    if X == {} {
      NoExtensions({y});
    } else {
      var x :| x in X;
      ExtensionsByOne(X - {x}, y);
      InExtensions(X - {x}, {y}, x + [y]);
      assert (x + [y])[..|x|] == x;
      forall z: seq<seq<bool>>
        ensures z in Extensions(X, {y}) <==> z == x + [y] || z in Extensions(X - {x}, {y})
      {
        InExtensions(X, {y}, z);
        InExtensions(X - {x}, {y}, z);
        if |z| > 0 && z[|z| - 1] == y { assert z == z[..|z| - 1] + [y]; }
      }
      assert Extensions(X, {y}) == Extensions(X - {x}, {y}) + {x + [y]};
    }
  }

  lemma {:induction false} CountExtensions(X: set<seq<seq<bool>>>, Y: set<seq<bool>>)
    ensures |Extensions(X, Y)| == |X| * |Y|
    decreases |Y|
  {
    if Y == {} {
      assert Extensions(X, Y) == {};
    } else {
      var y :| y in Y;
      CountExtensions(X, Y - {y});
      ExtensionsByOne(X, y);
      SplitExtensions(X, Y, y);
      assert |X| * |Y| == |X| * (|Y| - 1) + |X|;
    }
  }

  lemma SplitExtensions(X: set<seq<seq<bool>>>, Y: set<seq<bool>>, y: seq<bool>)
    requires y in Y
    ensures |Extensions(X, Y)| == |Extensions(X, Y - {y})| + |Extensions(X, {y})|
  {
    var one, rest := Extensions(X, {y}), Extensions(X, Y - {y});
    forall z | z in one
      ensures z !in rest
    {
      InExtensions(X, {y}, z);
      InExtensions(X, Y - {y}, z);
    }
    assert one !! rest;
    assert Extensions(X, Y) == rest + one;
  }

  /** All masks for n bits. */
  ghost function Masks(n: nat): set<seq<bool>> {
    if n == 0 then {[]} else Extended(Masks(n - 1), false) + Extended(Masks(n - 1), true)
  }

  lemma {:induction false} InMasks(n: nat, m: seq<bool>)
    ensures m in Masks(n) <==> |m| == n
  {
    hide Extended;
    if n > 0 {
      InExtended(Masks(n - 1), false, m);
      InExtended(Masks(n - 1), true, m);
      if |m| > 0 { InMasks(n - 1, m[..|m| - 1]); }
    }
  }

  /** The masks of n bits that select an even (or odd) number of the differences. */
  ghost function Selecting(d: seq<bool>, odd: bool): set<seq<bool>> {
    set m | m in Masks(|d|) && |m| == |d| && MaskedParity(m, d) == odd
  }

  lemma LastBit(m: seq<bool>, x: bool, d: seq<bool>)
    requires |d| > 0 && |m| == |d| - 1
    ensures MaskedParity(m + [x], d) == (MaskedParity(m, d[..|d| - 1]) != (x && d[|d| - 1]))
  {
    var n := |d| - 1;
    ParPrefix(And(m + [x], d), And(m, d[..n]), 0, n);
  }

  /** A mask of n bits is one of n - 1 bits and one more bit, which counts when it selects a difference. */
  lemma SelectingStep(d: seq<bool>, odd: bool)
    requires |d| > 0
    ensures var rest, b := d[..|d| - 1], d[|d| - 1];
      |Selecting(d, odd)| == |Selecting(rest, odd)| + |Selecting(rest, odd != b)|
  {
    hide Selecting, Extended, MaskedParity;
    var n := |d| - 1;
    var rest, b := d[..n], d[n];
    var clear, marked := Extended(Selecting(rest, odd), false), Extended(Selecting(rest, odd != b), true);
    forall m: seq<bool>
      ensures m in Selecting(d, odd) <==> m in clear || m in marked
      ensures !(m in clear && m in marked)
    {
      InSelecting(d, odd, m);
    }
    assert Selecting(d, odd) == clear + marked && clear !! marked;
    CountExtended(Selecting(rest, odd), false);
    CountExtended(Selecting(rest, odd != b), true);
  }

  lemma InSelecting(d: seq<bool>, odd: bool, m: seq<bool>)
    requires |d| > 0
    ensures var rest, b := d[..|d| - 1], d[|d| - 1];
      var clear, marked := Extended(Selecting(rest, odd), false), Extended(Selecting(rest, odd != b), true);
      && (m in Selecting(d, odd) <==> m in clear || m in marked)
      && !(m in clear && m in marked)
  {
    hide MaskedParity, Masks, Extended;
    var n := |d| - 1;
    InMasks(n + 1, m);
    InExtended(Selecting(d[..n], odd), false, m);
    InExtended(Selecting(d[..n], odd != d[n]), true, m);
    if |m| > 0 { InMasks(n, m[..|m| - 1]); }
    if |m| == |d| {
      LastBit(m[..n], m[n], d);
      assert m == m[..n] + [m[n]];
    }
  }

  /** Half of all masks select an even number of the differences; all of them when there is no difference. */
  lemma {:induction false} CountSelecting(d: seq<bool>)
    ensures (forall i :: 0 <= i < |d| ==> !d[i]) ==>
      |Selecting(d, false)| == Pow2(|d|) && |Selecting(d, true)| == 0
    ensures (exists i :: 0 <= i < |d| && d[i]) ==>
      |Selecting(d, false)| == |Selecting(d, true)| == Pow2(|d| - 1)
    decreases |d|
  {
    hide Selecting;
    if d == [] {
      NoBits();
    } else {
      var n := |d| - 1;
      CountSelecting(d[..n]);
      SelectingStep(d, false);
      SelectingStep(d, true);
      if n > 0 { Pow2Step(n - 1); }
    }
  }

  lemma NoBits()
    ensures |Selecting([], false)| == 1 && |Selecting([], true)| == 0
  {
    assert MaskedParity([], []) == false;
    InMasks(0, []);
    assert Selecting([], false) == {[]} && Selecting([], true) == {};
  }

  /** All choices of masks for r rounds. */
  ghost function Choices(n: nat, r: nat): set<seq<seq<bool>>> {
    if r == 0 then {[]} else Extensions(Choices(n, r - 1), Masks(n))
  }

  lemma {:induction false} InChoices(n: nat, r: nat, ms: seq<seq<bool>>)
    ensures ms in Choices(n, r) <==> |ms| == r && AreMasks(ms, n)
  {
    hide Extensions, Masks;
    if r > 0 {
      InExtensions(Choices(n, r - 1), Masks(n), ms);
      if |ms| > 0 {
        InChoices(n, r - 1, ms[..|ms| - 1]);
        InMasks(n, ms[|ms| - 1]);
        assert ms == ms[..|ms| - 1] + [ms[|ms| - 1]];
      }
    }
  }

  /** The choices of masks that confirm these two keys. */
  ghost function Confirming(x: seq<bool>, y: seq<bool>, r: nat): set<seq<seq<bool>>>
    requires |x| == |y|
  {
    set ms | ms in Choices(|x|, r) && AreMasks(ms, |x|) && Agree(ms, x, y)
  }

  lemma ConfirmingNone(x: seq<bool>, y: seq<bool>)
    requires |x| == |y|
    ensures Confirming(x, y, 0) == {[]}
  {
    forall ms: seq<seq<bool>>
      ensures ms in Confirming(x, y, 0) <==> ms == []
    {
      InChoices(|x|, 0, ms);
    }
  }

  lemma {:induction false} CountConfirming(x: seq<bool>, y: seq<bool>, r: nat)
    requires |x| == |y|
    ensures |Confirming(x, y, r)| == Power(|Selecting(Xors(x, y), false)|, r)
  {
    hide Selecting, MaskedParity, Choices, Masks;
    if r == 0 {
      ConfirmingNone(x, y);
    } else {
      CountConfirming(x, y, r - 1);
      ConfirmingStep(x, y, r);
      CountExtensions(Confirming(x, y, r - 1), Selecting(Xors(x, y), false));
    }
  }

  function Power(b: nat, e: nat): nat {
    if e == 0 then 1 else Power(b, e - 1) * b
  }

  lemma ConfirmingStep(x: seq<bool>, y: seq<bool>, r: nat)
    requires |x| == |y| && r > 0
    ensures Confirming(x, y, r) == Extensions(Confirming(x, y, r - 1), Selecting(Xors(x, y), false))
  {
    hide Extensions, Confirming, Selecting;
    forall ms: seq<seq<bool>>
      ensures ms in Confirming(x, y, r) <==> ms in Extensions(Confirming(x, y, r - 1), Selecting(Xors(x, y), false))
    {
      InConfirming(x, y, r, ms);
    }
  }

  lemma InConfirming(x: seq<bool>, y: seq<bool>, r: nat, ms: seq<seq<bool>>)
    requires |x| == |y| && r > 0
    ensures ms in Confirming(x, y, r) <==> ms in Extensions(Confirming(x, y, r - 1), Selecting(Xors(x, y), false))
  {
    hide MaskedParity, Choices, Masks, Extensions;
    var d := Xors(x, y);
    InChoices(|x|, r, ms);
    InExtensions(Confirming(x, y, r - 1), Selecting(d, false), ms);
    if |ms| > 0 {
      var us, m := ms[..|ms| - 1], ms[|ms| - 1];
      InChoices(|x|, r - 1, us);
      InMasks(|x|, m);
      if |m| == |x| { MaskedDifference(m, x, y); }
      assert ms == us + [m];
    }
  }

  lemma {:induction false} PowerOfPow2(n: nat, r: nat)
    ensures Power(Pow2(n), r) == Pow2(n * r)
  {
    hide Pow2;
    if r == 0 {
      Pow2Step(0);
    } else {
      PowerOfPow2(n, r - 1);
      Pow2Sum(n * (r - 1), n);
      assert n * (r - 1) + n == n * r;
    }
  }

  /**
   * Of the 2^(n r) choices of r masks all confirm equal keys of n bits, and exactly 2^((n - 1) r) confirm
   * unequal ones.
   */
  lemma ConfirmingShare(x: seq<bool>, y: seq<bool>, r: nat)
    requires |x| == |y|
    ensures |Choices(|x|, r)| == Pow2(|x| * r)
    ensures x == y ==> Confirming(x, y, r) == Choices(|x|, r)
    ensures x != y ==> |x| > 0 && |Confirming(x, y, r)| == Pow2((|x| - 1) * r)
  {
    hide Selecting, Pow2, Confirming, Choices;
    var d, z := Xors(x, y), Xors(x, x);
    CountSelecting(d);
    CountSelecting(z);
    CountConfirming(x, y, r);
    CountConfirming(x, x, r);
    PowerOfPow2(|x|, r);
    AllConfirm(x, r);
    if x != y {
      assert exists i :: 0 <= i < |d| && d[i] by {
        var i :| 0 <= i < |x| && x[i] != y[i];
        assert d[i];
      }
      PowerOfPow2(|x| - 1, r);
    }
  }

  lemma AllConfirm(x: seq<bool>, r: nat)
    ensures Confirming(x, x, r) == Choices(|x|, r)
  {
    hide MaskedParity, Choices;
    forall ms: seq<seq<bool>>
      ensures ms in Confirming(x, x, r) <==> ms in Choices(|x|, r)
    {
      InChoices(|x|, r, ms);
    }
  }
}
