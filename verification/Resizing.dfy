/** Resizing of keys: what arrives is buffered, cut and joined into keys of an exact or a minimum size. */
module Resizing {
  import opened Words
  import opened Multiples
  import opened Streams

  /** One unit of work: a key and whether it is to be forwarded. */
  datatype Work = Work(id: nat, data: seq<Byte>, disclosed: bool, forward: bool) {
    predicate IsNull() {
      id == 0 && data == []
    }
  }

  const NO_WORK := Work(0, [], false, false)

  function Piece(data: seq<Byte>): Work {
    Work(0, data, false, false)
  }

  /** All bytes of the work, in order. */
  function Bytes(ws: seq<Work>): seq<Byte> {
    if ws == [] then [] else ws[0].data + Bytes(ws[1..])
  }

  lemma {:induction false} BytesConcat(x: seq<Work>, y: seq<Work>)
    ensures Bytes(x + y) == Bytes(x) + Bytes(y)
    decreases |x|
  {
    if x == [] {
      assert x + y == y;
    } else {
      BytesConcat(x[1..], y);
      assert (x + y)[1..] == x[1..] + y;
    }
  }

  /** A key cut so that what came before it and its first piece make up one exact size, and so on. */
  function Cut(w: Work, exact: nat, before: nat): (ps: seq<Work>)
    requires before < exact
    ensures ps != []
    decreases |w.data|
  {
    if before + |w.data| < exact then [w]
    else
      var cut := exact - before;
      [Piece(w.data[..cut])] + Cut(Piece(w.data[cut..]), exact, 0)
  }

  /** The buffer after the first run; what is left of a cut key is not counted for the next one. */
  function SplitRun(ws: seq<Work>, exact: nat, before: nat): (ps: seq<Work>)
    requires before < exact
    decreases |ws|
  {
    if ws == [] then []
    else if before + |ws[0].data| < exact then [ws[0]] + SplitRun(ws[1..], exact, before + |ws[0].data|)
    else Cut(ws[0], exact, before) + SplitRun(ws[1..], exact, 0)
  }

  /** The exact keys that the second run joins from the pieces, starting with the bytes joined so far. */
  function Joined(ps: seq<Work>, exact: nat, start: seq<Byte>): (keys: seq<seq<Byte>>)
    decreases |ps|
  {
    if ps == [] then []
    else
      var data := start + ps[0].data;
      if |data| == exact then [data] + Joined(ps[1..], exact, []) else Joined(ps[1..], exact, data)
  }

  /** How many pieces go into those keys. */
  function Used(ps: seq<Work>, exact: nat, start: seq<Byte>): (n: nat)
    ensures n <= |ps|
    decreases |ps|
  {
    if ps == [] then 0
    else
      var data := start + ps[0].data;
      var rest := Used(ps[1..], exact, if |data| == exact then [] else data);
      if |data| == exact || rest > 0 then rest + 1 else 0
  }

  /** The bytes counted since the last cut, as the first run counts them. */
  function SinceCut(ws: seq<Work>, exact: nat, before: nat): (c: nat)
    requires before < exact
    ensures c < exact
    decreases |ws|
  {
    if ws == [] then before
    else SinceCut(ws[1..], exact, if before + |ws[0].data| < exact then before + |ws[0].data| else 0)
  }

  /** The bytes joined since the last exact key, as the second run joins them. */
  function SinceKey(ps: seq<Work>, exact: nat, before: nat): (x: nat)
    decreases |ps|
  {
    if ps == [] then before
    else SinceKey(ps[1..], exact, if before + |ps[0].data| == exact then 0 else before + |ps[0].data|)
  }

  /** The two runs have lost step: they would count a new key from different starts. */
  predicate OutOfStep(ws: seq<Work>, exact: nat)
    requires exact > 0
  {
    SinceCut(ws, exact, 0) != SinceKey(SplitRun(ws, exact, 0), exact, 0)
  }

  /** The new key reaches beyond the next exact key while the runs are out of step. */
  predicate Fails(ws: seq<Work>, w: Work, exact: nat)
    requires exact > 0
  {
    OutOfStep(ws, exact) && SinceKey(SplitRun(ws, exact, 0), exact, 0) + |w.data| > exact
  }

  function Concat(keys: seq<seq<Byte>>): seq<Byte> {
    if keys == [] then [] else keys[0] + Concat(keys[1..])
  }

  lemma {:induction false} CutBytes(w: Work, exact: nat, before: nat)
    requires before < exact
    ensures Bytes(Cut(w, exact, before)) == w.data
    decreases |w.data|
  {
    if before + |w.data| >= exact {
      var cut := exact - before;
      var rest := Cut(Piece(w.data[cut..]), exact, 0);
      CutBytes(Piece(w.data[cut..]), exact, 0);
      assert ([Piece(w.data[..cut])] + rest)[1..] == rest;
    }
  }

  /** Cutting loses no byte and changes no order, for any buffer. */
  lemma {:induction false} SplitBytes(ws: seq<Work>, exact: nat, before: nat)
    requires before < exact
    ensures Bytes(SplitRun(ws, exact, before)) == Bytes(ws)
    decreases |ws|
  {
    hide Cut;
    if ws != [] {
      if before + |ws[0].data| < exact {
        var rest := SplitRun(ws[1..], exact, before + |ws[0].data|);
        SplitBytes(ws[1..], exact, before + |ws[0].data|);
        assert ([ws[0]] + rest)[1..] == rest;
      } else {
        SplitBytes(ws[1..], exact, 0);
        CutBytes(ws[0], exact, before);
        BytesConcat(Cut(ws[0], exact, before), SplitRun(ws[1..], exact, 0));
      }
    }
  }

  /** Joining loses no byte and changes no order: the keys and what stays in the buffer are all there is. */
  lemma {:induction false} JoinBytes(ps: seq<Work>, exact: nat, start: seq<Byte>)
    ensures var n := Used(ps, exact, start);
      Concat(Joined(ps, exact, start)) + Bytes(ps[n..]) == (if n > 0 then start else []) + Bytes(ps)
    ensures Used(ps, exact, start) == 0 <==> Joined(ps, exact, start) == []
    decreases |ps|
  {
    hide Bytes, Concat;
    if ps == [] {
      NothingAtAll();
    } else {
      var data := start + ps[0].data;
      var next := if |data| == exact then [] else data;
      JoinBytes(ps[1..], exact, next);
      var n := Used(ps[1..], exact, next);
      BytesFirst(ps);
      if |data| == exact {
        JoinFull(ps, exact, start, n);
      } else if n > 0 {
        JoinMore(ps, exact, start, n);
      } else {
        NothingAtAll();
        assert ps[0..] == ps;
      }
    }
  }

  lemma JoinFull(ps: seq<Work>, exact: nat, start: seq<Byte>, n: nat)
    requires ps != [] && |start + ps[0].data| == exact && n == Used(ps[1..], exact, [])
    requires Concat(Joined(ps[1..], exact, [])) + Bytes(ps[1..][n..]) == Bytes(ps[1..])
    ensures Concat(Joined(ps, exact, start)) + Bytes(ps[n + 1..]) == start + Bytes(ps)
  {
    hide Bytes, Concat;
    var keys := Joined(ps[1..], exact, []);
    BytesFirst(ps);
    ConcatFirst(start + ps[0].data, keys);
    assert ps[n + 1..] == ps[1..][n..];
    Regroup(start, ps[0].data, Concat(keys), Bytes(ps[1..][n..]));
  }

  lemma JoinMore(ps: seq<Work>, exact: nat, start: seq<Byte>, n: nat)
    requires ps != [] && |start + ps[0].data| != exact && n == Used(ps[1..], exact, start + ps[0].data) > 0
    requires Concat(Joined(ps[1..], exact, start + ps[0].data)) + Bytes(ps[1..][n..])
          == start + ps[0].data + Bytes(ps[1..])
    ensures Concat(Joined(ps, exact, start)) + Bytes(ps[n + 1..]) == start + Bytes(ps)
  {
    hide Bytes, Concat;
    BytesFirst(ps);
    assert ps[n + 1..] == ps[1..][n..];
    Regroup(start, ps[0].data, Bytes(ps[1..]), []);
  }

  lemma Regroup(x: seq<Byte>, y: seq<Byte>, z: seq<Byte>, t: seq<Byte>)
    ensures (x + y + z) + t == x + (y + (z + t))
    ensures z + [] == z && x + y + z == x + (y + z)
  {}

  lemma NothingAtAll()
    ensures Bytes([]) == [] && Concat([]) == []
  {}

  lemma BytesFirst(ps: seq<Work>)
    requires ps != []
    ensures Bytes(ps) == ps[0].data + Bytes(ps[1..])
  {}

  lemma ConcatFirst(k: seq<Byte>, keys: seq<seq<Byte>>)
    ensures Concat([k] + keys) == k + Concat(keys)
  {}

  lemma {:induction false} JoinedExact(ps: seq<Work>, exact: nat, start: seq<Byte>)
    ensures forall k :: k in Joined(ps, exact, start) ==> |k| == exact
    decreases |ps|
  {
    if ps != [] {
      var data := start + ps[0].data;
      JoinedExact(ps[1..], exact, if |data| == exact then [] else data);
    }
  }

  lemma {:induction false} ConcatSize(keys: seq<seq<Byte>>, exact: nat)
    requires forall k :: k in keys ==> |k| == exact
    ensures |Concat(keys)| == |keys| * exact
  {
    if keys != [] {
      ConcatSize(keys[1..], exact);
      NextMultiple(|keys| - 1, exact);
    }
  }

  lemma SplitOne(w: Work, ps: seq<Work>, exact: nat, before: nat)
    requires before + |w.data| < exact
    ensures SplitRun([w] + ps, exact, before) == [w] + SplitRun(ps, exact, before + |w.data|)
  {
    assert ([w] + ps)[1..] == ps;
  }

  /** The first run treats the last key as if it were alone, but for the bytes counted before it. */
  lemma {:induction false} SplitAppend(ws: seq<Work>, w: Work, exact: nat, before: nat)
    requires before < exact
    ensures SplitRun(ws + [w], exact, before)
         == SplitRun(ws, exact, before) + SplitRun([w], exact, SinceCut(ws, exact, before))
    decreases |ws|
  {
    hide Cut;
    if ws == [] {
      assert ws + [w] == [w];
    } else {
      assert (ws + [w])[1..] == ws[1..] + [w];
      if before + |ws[0].data| < exact {
        SplitAppend(ws[1..], w, exact, before + |ws[0].data|);
      } else {
        SplitAppend(ws[1..], w, exact, 0);
      }
    }
  }

  lemma {:induction false} SinceKeyAppend(ps: seq<Work>, qs: seq<Work>, exact: nat, before: nat)
    ensures SinceKey(ps + qs, exact, before) == SinceKey(qs, exact, SinceKey(ps, exact, before))
    decreases |ps|
  {
    if ps == [] {
      assert ps + qs == qs;
    } else {
      assert (ps + qs)[1..] == ps[1..] + qs;
      SinceKeyAppend(ps[1..], qs, exact, if before + |ps[0].data| == exact then 0 else before + |ps[0].data|);
    }
  }

  /** What is joined since the last key is what the second run leaves in the buffer. */
  lemma {:induction false} SinceKeyIsLeft(ps: seq<Work>, exact: nat, start: seq<Byte>)
    ensures var n := Used(ps, exact, start);
      SinceKey(ps, exact, |start|) == (if n == 0 then |start| else 0) + |Bytes(ps[n..])|
    decreases |ps|
  {
    hide Bytes;
    if ps == [] {
      NothingAtAll();
    } else {
      BytesFirst(ps);
      var data := start + ps[0].data;
      if |data| == exact {
        SinceKeyIsLeft(ps[1..], exact, []);
        assert ps[1..][Used(ps[1..], exact, [])..] == ps[Used(ps, exact, start)..];
      } else {
        SinceKeyIsLeft(ps[1..], exact, data);
        if Used(ps[1..], exact, data) > 0 {
          assert ps[1..][Used(ps[1..], exact, data)..] == ps[Used(ps, exact, start)..];
        }
      }
    }
  }

  lemma CutOnce(w: Work, exact: nat, before: nat, joined: nat)
    requires before < exact <= before + |w.data|
    ensures var cut := exact - before;
      SinceKey(Cut(w, exact, before), exact, joined)
      == SinceKey(Cut(Piece(w.data[cut..]), exact, 0), exact, if joined + cut == exact then 0 else joined + cut)
  {
    var cut := exact - before;
    var rest := Cut(Piece(w.data[cut..]), exact, 0);
    assert ([Piece(w.data[..cut])] + rest)[1..] == rest;
  }

  lemma CutNothing(w: Work, exact: nat, before: nat, joined: nat)
    requires before < exact && before + |w.data| < exact
    ensures SinceKey(Cut(w, exact, before), exact, joined)
         == if joined + |w.data| == exact then 0 else joined + |w.data|
  {}

  /** In step all pieces of a cut key but the last become keys, and the last one is shorter than the exact size. */
  lemma {:induction false} CutInStep(w: Work, exact: nat, before: nat)
    requires before < exact
    ensures SinceKey(Cut(w, exact, before), exact, before) < exact
    decreases |w.data|
  {
    hide Cut, SinceKey;
    if before + |w.data| >= exact {
      CutOnce(w, exact, before, before);
      CutInStep(Piece(w.data[exact - before..]), exact, 0);
    } else {
      CutNothing(w, exact, before, before);
    }
  }

  /** Out of step the first piece makes no key, and neither does anything behind it. */
  lemma {:induction false} CutOutOfStep(w: Work, exact: nat, before: nat, joined: nat)
    requires before < exact && joined != before
    ensures SinceKey(Cut(w, exact, before), exact, joined) >= exact <==> joined + |w.data| > exact
    decreases |w.data|
  {
    hide Cut, SinceKey;
    if before + |w.data| >= exact {
      CutOnce(w, exact, before, joined);
      CutOutOfStep(Piece(w.data[exact - before..]), exact, 0, joined + (exact - before));
    } else {
      CutNothing(w, exact, before, joined);
    }
  }

  lemma NothingJoined(ps: seq<Work>, exact: nat)
    ensures Joined(ps, exact, []) == [] ==> Bytes(ps[Used(ps, exact, [])..]) == Bytes(ps)
  {
    JoinBytes(ps, exact, []);
    assert ps[0..] == ps;
  }

  lemma SplitLast(w: Work, exact: nat, before: nat)
    requires before < exact
    ensures SplitRun([w], exact, before) == Cut(w, exact, before)
  {
    assert [w][1..] == [];
    assert Cut(w, exact, before) + [] == Cut(w, exact, before);
  }

  /** One more key leaves the exact size or more in the buffer exactly when it fails. */
  lemma LeftExactly(ws: seq<Work>, w: Work, exact: nat)
    requires exact > 0
    ensures SinceKey(SplitRun(ws + [w], exact, 0), exact, 0) >= exact <==> Fails(ws, w, exact)
  {
    hide SplitRun, SinceCut, SinceKey, Cut;
    var c, x := SinceCut(ws, exact, 0), SinceKey(SplitRun(ws, exact, 0), exact, 0);
    SplitAppend(ws, w, exact, 0);
    SinceKeyAppend(SplitRun(ws, exact, 0), SplitRun([w], exact, c), exact, 0);
    SplitLast(w, exact, c);
    if c == x { CutInStep(w, exact, c); } else { CutOutOfStep(w, exact, c, x); }
  }

  /** A buffer takes whatever key comes next exactly when the two runs are in step. */
  lemma TakesEveryKey(ws: seq<Work>, exact: nat)
    requires exact > 0
    ensures (forall w :: !Fails(ws, w, exact)) <==> !OutOfStep(ws, exact)
  {
    if OutOfStep(ws, exact) { assert Fails(ws, Piece(seq(exact + 1, _ => 0)), exact); }
  }

  /** Below the exact size nothing is cut or joined, and so the runs are in step. */
  lemma {:induction false} BelowInStep(ws: seq<Work>, exact: nat, before: nat)
    requires before + |Bytes(ws)| < exact
    ensures SplitRun(ws, exact, before) == ws
    ensures SinceCut(ws, exact, before) == SinceKey(ws, exact, before) == before + |Bytes(ws)|
    decreases |ws|
  {
    if ws != [] { BelowInStep(ws[1..], exact, before + |ws[0].data|); }
  }

  lemma BelowTakes(ws: seq<Work>, w: Work, exact: nat)
    requires |Bytes(ws)| < exact
    ensures !OutOfStep(ws, exact) && !Fails(ws, w, exact)
  {
    BelowInStep(ws, exact, 0);
  }

  /**
   * What one call makes of a buffer of at least the exact size: keys of the exact size and what is left behind
   * them, all bytes in order, and at least the exact size left exactly when the two runs are out of step and the
   * new key reaches beyond the next exact key.
   */
  lemma ExactPicks(ws: seq<Work>, w: Work, exact: nat)
    requires exact > 0
    ensures var ps := SplitRun(ws + [w], exact, 0);
      var keys, left := Joined(ps, exact, []), Bytes(ps[Used(ps, exact, [])..]);
      && |left| == SinceKey(ps, exact, 0)
      && (|left| >= exact <==> Fails(ws, w, exact))
      && (keys == [] && |Bytes(ws)| + |w.data| >= exact ==> |left| >= exact)
      && Concat(keys) + left == Bytes(ws) + w.data
      && forall k :: k in keys ==> |k| == exact
  {
    hide Cut, Bytes, SplitRun, Joined, Used, Concat, SinceCut, SinceKey, Fails;
    var ps := SplitRun(ws + [w], exact, 0);
    LeftExactly(ws, w, exact);
    SinceKeyIsLeft(ps, exact, []);
    JoinBytes(ps, exact, []);
    JoinedExact(ps, exact, []);
    SplitBytes(ws + [w], exact, 0);
    BytesConcat(ws, [w]);
    OnePiece(w);
    NothingAtAll();
    OneConcat([]);
    assert ps[0..] == ps;
    assert [] + Bytes(ps) == Bytes(ps);
  }

  /** The forwarded work: these keys, under fresh ids. */
  ghost predicate Forwards(ws: seq<Work>, keys: seq<seq<Byte>>, count: nat) {
    |ws| == |keys| && forall j :: 0 <= j < |ws| ==> ws[j].data == keys[j] && ws[j].forward && ws[j].id == count + j + 1
  }

  /** The workload with work for these keys behind it. */
  ghost predicate Appended(all: seq<Work>, workload: seq<Work>, keys: seq<seq<Byte>>, count: nat) {
    && |all| == |workload| + |keys| && all[..|workload|] == workload
    && Forwards(all[|workload|..], keys, count)
  }

  datatype Result<T> = Ok(value: T) | LogicError

  class Resizer {
    var work: seq<Work>
    var currentSize: nat
    var exactSize: nat
    var minimumSize: nat
    var keyIdCounter: nat

    constructor ()
      ensures work == [] && currentSize == 0 && exactSize == 0 && minimumSize == 0 && keyIdCounter == 0
    {
      work, currentSize, exactSize, minimumSize, keyIdCounter := [], 0, 0, 0, 0;
    }

    method SetExactKeySize(size: nat)
      modifies this
      ensures exactSize == size && minimumSize == 0
      ensures work == old(work) && currentSize == old(currentSize) && keyIdCounter == old(keyIdCounter)
    {
      exactSize, minimumSize := size, 0;
    }

    method SetMinimumKeySize(size: nat)
      modifies this
      ensures exactSize == 0 && minimumSize == size
      ensures work == old(work) && currentSize == old(currentSize) && keyIdCounter == old(keyIdCounter)
    {
      exactSize, minimumSize := 0, size;
    }

    ghost predicate Valid()
      reads this
    {
      currentSize == |Bytes(work)|
    }

    /** First run: split the buffered keys in place. */
    method SplitKeys()
      requires exactSize > 0
      modifies this`work
      ensures work == SplitRun(old(work), exactSize, 0)
    {
      hide Cut, SplitRun;
      var i: nat, current: nat := 0, 0;
      NothingPassed(work, exactSize);
      while i < |work|
        invariant i <= |work| && current < exactSize
        invariant work[..i] + SplitRun(work[i..], exactSize, current) == SplitRun(old(work), exactSize, 0)
        decreases |work| - i
      {
        ghost var before := work;
        if current + |work[i].data| < exactSize {
          PassOver(before, i, exactSize, current);
          current := current + |work[i].data|;
          i := i + 1;
        } else {
          ghost var at, c := i, current;
          i := CutKey(i, current);
          PassCut(before, at, exactSize, c, work, i);
          current := 0;
        }
      }
      AllPassed(work, exactSize, current);
    }

    /** Split one key until less than an exact size is left of it; its last piece is passed over. */
    method CutKey(i: nat, current: nat) returns (next: nat)
      requires i < |work| && current < exactSize && current + |work[i].data| >= exactSize
      modifies this`work
      ensures work == old(work)[..i] + Cut(old(work)[i], exactSize, current) + old(work)[i + 1..]
      ensures next == i + |Cut(old(work)[i], exactSize, current)|
    {
      var at: nat, cur: nat := i, current;
      ghost var before, behind := work[..i], work[i + 1..];
      while cur + |work[at].data| >= exactSize
        invariant i <= at < |work| && cur < exactSize
        invariant work[..at] + Cut(work[at], exactSize, cur) == before + Cut(old(work)[i], exactSize, current)
        invariant work[at + 1..] == behind
        decreases |work[at].data|
      {
        var cut := exactSize - cur;
        var data := work[at].data;
        work := work[..at] + [Piece(data[..cut]), Piece(data[cut..])] + work[at + 1..];
        at, cur := at + 1, 0;
      }
      next := at + 1;
    }

    /** Second run: join the pieces, mark those that went into keys, and take the marked ones out. */
    method JoinKeys(workload: seq<Work>) returns (forwarded: seq<Work>)
      requires exactSize > 0 && Valid()
      modifies this
      ensures exactSize == old(exactSize) && minimumSize == old(minimumSize)
      ensures var keys := Joined(old(work), exactSize, []);
        keyIdCounter == old(keyIdCounter) + |keys| && Appended(forwarded, workload, keys, old(keyIdCounter))
      ensures Valid() && SameData(work, old(work)[Used(old(work), exactSize, [])..])
    {
      hide Bytes, Joined, Used, Appended, Joining, Marked, SameData;
      ghost var ps, counter, keys: seq<seq<Byte>> := work, keyIdCounter, [];
      forwarded := workload;
      var joined := NO_WORK;
      var last: nat, i: nat := 0, 0;
      ghost var used: nat := 0;
      JoiningStart(ps, exactSize);
      AppendedNothing(workload, counter);
      while i < |work|
        invariant i <= |work| == |ps| && used <= i && last == if used == 0 then 0 else used - 1
        invariant exactSize == old(exactSize) && minimumSize == old(minimumSize)
        invariant Joining(ps, exactSize, i, joined.data, keys, used) && Marked(ps, work, i, used)
        invariant currentSize == |joined.data| + |Bytes(ps[i..])|
        invariant keyIdCounter == counter + |keys|
        invariant Appended(forwarded, workload, keys, counter)
      {
        JoiningStep(ps, exactSize, i, joined.data, keys, used);
        MarkedNext(ps, work, i, used);
        work := work[i := work[i].(forward := false)];
        ghost var next := joined.data + ps[i].data;
        joined := if joined.IsNull() then work[i] else joined.(data := joined.data + work[i].data);
        assert joined.data == next;
        if |joined.data| == exactSize {
          keyIdCounter := keyIdCounter + 1;
          joined := joined.(id := keyIdCounter, forward := true);
          AppendedMore(forwarded, workload, keys, counter, joined);
          forwarded := forwarded + [joined];
          keys := keys + [joined.data];
          last := MarkUpTo(ps, last, i, used);
          currentSize := currentSize - exactSize;
          joined, used := NO_WORK, i + 1;
        }
        i := i + 1;
      }
      JoiningEnd(ps, exactSize, joined.data, keys, used);
      KeptPieces(ps, work, used);
      work := RemoveMarked();
    }

    /** Mark the pieces behind the last marked one, up to piece i. */
    method MarkUpTo(ghost ps: seq<Work>, from: nat, i: nat, ghost used: nat) returns (last: nat)
      requires i < |work| && from <= i && (from == if used == 0 then 0 else used - 1) && used <= i
      requires Marked(ps, work, i + 1, used)
      modifies this`work
      ensures last == i && |work| == old(|work|) && Marked(ps, work, i + 1, i + 1)
    {
      last := from;
      while last != i
        invariant from <= last <= i && |work| == old(|work|)
        invariant Marked(ps, work, i + 1, if used < last then last else used)
        decreases i - last
      {
        work := work[last := work[last].(forward := true)];
        last := last + 1;
      }
      work := work[last := work[last].(forward := true)];
    }

    /** All keys of the exact size that the buffer gives; an error when bytes for another one are left. */
    method PickExactKeys(workload: seq<Work>) returns (res: Result<seq<Work>>)
      requires Valid()
      modifies this
      ensures Valid() && exactSize == old(exactSize) && minimumSize == old(minimumSize)
      ensures exactSize == 0 || old(currentSize) < exactSize ==>
        res == Ok(workload) && work == old(work) && currentSize == old(currentSize) && keyIdCounter == old(keyIdCounter)
      ensures exactSize > 0 && old(currentSize) >= exactSize ==>
        var ps := SplitRun(old(work), exactSize, 0);
        var keys := Joined(ps, exactSize, []);
        && keyIdCounter == old(keyIdCounter) + |keys|
        && SameData(work, ps[Used(ps, exactSize, [])..]) && Bytes(work) == Bytes(ps[Used(ps, exactSize, [])..])
        && (res.LogicError? <==> SinceKey(ps, exactSize, 0) >= exactSize)
        && (res.Ok? ==> Appended(res.value, workload, keys, old(keyIdCounter)))
    {
      hide SplitRun, Joined, Used, Bytes, Forwards, SameData;
      if exactSize == 0 { return Ok(workload); }
      if currentSize < exactSize { return Ok(workload); }
      SplitBytes(work, exactSize, 0);
      SplitKeys();
      ghost var ps := work;
      SinceKeyIsLeft(ps, exactSize, []);
      NothingJoined(ps, exactSize);
      var forwarded := JoinKeys(workload);
      assert Bytes(work) == Bytes(ps[Used(ps, exactSize, [])..]) by {
        SameBytes(work, ps[Used(ps, exactSize, [])..]);
      }
      if forwarded == [] { return LogicError; }
      if currentSize >= exactSize { return LogicError; }
      res := Ok(forwarded);
    }

    /** The whole buffer as one key once it has the minimum size. */
    method PickMinimumKey(workload: seq<Work>) returns (res: Result<seq<Work>>)
      requires Valid()
      modifies this
      ensures Valid() && exactSize == old(exactSize) && minimumSize == old(minimumSize)
      ensures minimumSize == 0 || old(currentSize) < minimumSize ==>
        res == Ok(workload) && work == old(work) && currentSize == old(currentSize) && keyIdCounter == old(keyIdCounter)
      ensures minimumSize > 0 && old(currentSize) >= minimumSize ==>
        && work == [] && keyIdCounter == old(keyIdCounter) + 1
        && res.Ok? && Appended(res.value, workload, [Bytes(old(work))], old(keyIdCounter))
    {
      hide Bytes, Unmarked;
      if minimumSize == 0 { return Ok(workload); }
      if currentSize < minimumSize { return Ok(workload); }
      var joined := NO_WORK;
      ghost var before := work;
      NothingAtAll();
      assert work[0..] == work && work[..0] == [];
      for i := 0 to |work|
        invariant |work| == |before| && exactSize == old(exactSize) && minimumSize == old(minimumSize)
        invariant keyIdCounter == old(keyIdCounter)
        invariant forall j :: 0 <= j < i ==> work[j].forward
        invariant forall j :: 0 <= j < |work| ==> work[j].data == before[j].data
        invariant joined.data == Bytes(before[..i]) && currentSize == |Bytes(before[i..])|
      {
        BytesNext(before, i);
        joined := if joined.IsNull() then work[i] else joined.(data := joined.data + work[i].data);
        currentSize := currentSize - |work[i].data|;
        work := work[i := work[i].(forward := true)];
      }
      assert before[..|before|] == before && before[|before|..] == [];
      assert work[..|work|] == work;
      UnmarkedIs(work, |work|, |work|);
      work := RemoveMarked();
      if joined.IsNull() { return LogicError; }
      if currentSize != 0 { return LogicError; }
      if |work| != 0 { return LogicError; }
      keyIdCounter := keyIdCounter + 1;
      joined := joined.(id := keyIdCounter, forward := true);
      assert (workload + [joined])[|workload|..] == [joined];
      res := Ok(workload + [joined]);
    }

    /** Every mode of operation that the source distinguishes. */
    method Process(workload: seq<Work>, synchronizing: bool) returns (res: Result<seq<Work>>)
      requires Valid() && workload != []
      modifies this
      ensures Valid() && exactSize == old(exactSize) && minimumSize == old(minimumSize)
      ensures !synchronizing ==> res == Ok([NO_WORK])
      ensures synchronizing && (exactSize > 0) == (minimumSize > 0) ==>
        res == Ok(workload[0 := workload[0].(forward := !workload[0].disclosed)])
      ensures !synchronizing || (exactSize > 0) == (minimumSize > 0) ==>
        work == old(work) && currentSize == old(currentSize) && keyIdCounter == old(keyIdCounter)
      ensures synchronizing && exactSize > 0 && minimumSize == 0 ==>
        && (res.LogicError? <==> Fails(old(work), workload[0], exactSize))
        && (res.Ok? ==>
              && currentSize < exactSize
              && Bytes(res.value) + Bytes(work) == Bytes(old(work)) + Bytes(workload)
              && Datas(res.value) == Stretches(Bytes(old(work)) + Bytes(workload), exactSize)
              && Dispensed(res.value, old(keyIdCounter), keyIdCounter))
        && (old(currentSize) + |Bytes(workload)| < exactSize ==> work == old(work) + workload)
      ensures synchronizing && exactSize == 0 && minimumSize > 0 ==>
        && res.Ok? && currentSize < minimumSize
        && Bytes(res.value) + Bytes(work) == Bytes(old(work)) + Bytes(workload)
        && (forall j :: 0 <= j < |res.value| ==> |res.value[j].data| >= minimumSize)
        && (old(currentSize) < minimumSize ==> exists ends: seq<nat> ::
              Gathered(res.value, Bytes(work), Bytes(old(work)), workload, |workload|, ends, minimumSize))
        && Dispensed(res.value, old(keyIdCounter), keyIdCounter)
    {
      hide Bytes, Fails, Stretches, Datas, Gathered;
      if !synchronizing { return Ok([NO_WORK]); }
      if exactSize == 0 && minimumSize == 0 {
        return Ok(workload[0 := workload[0].(forward := !workload[0].disclosed)]);
      }
      if exactSize > 0 && minimumSize > 0 {
        return Ok(workload[0 := workload[0].(forward := !workload[0].disclosed)]);
      }
      var forwarded: seq<Work> := [];
      ghost var ends: seq<nat> := [];
      NothingDispensed(keyIdCounter);
      NothingGathered(Bytes(work), workload, minimumSize);
      assert workload[..0] == [];
      for i := 0 to |workload|
        invariant Valid() && exactSize == old(exactSize) && minimumSize == old(minimumSize)
        invariant i == 0 ==> work == old(work)
        invariant i > 0 ==> currentSize < (if minimumSize > 0 then minimumSize else exactSize)
        invariant exactSize > 0 && i > 0 ==> !Fails(old(work), workload[0], exactSize)
        invariant exactSize > 0 && |Bytes(old(work))| + |Bytes(workload)| < exactSize ==>
          work == old(work) + workload[..i]
        invariant Bytes(forwarded) + Bytes(work) == Bytes(old(work)) + Bytes(workload[..i])
        invariant Dispensed(forwarded, old(keyIdCounter), keyIdCounter)
        invariant exactSize > 0 ==> forall j :: 0 <= j < |forwarded| ==> |forwarded[j].data| == exactSize
        invariant minimumSize > 0 ==> forall j :: 0 <= j < |forwarded| ==> |forwarded[j].data| >= minimumSize
        invariant old(currentSize) < minimumSize ==>
          currentSize < minimumSize
          && Gathered(forwarded, Bytes(work), Bytes(old(work)), workload, i, ends, minimumSize)
      {
        BytesNext(workload, i);
        BytesPrefix(workload, i + 1);
        if currentSize < exactSize { BelowTakes(work, workload[i], exactSize); }
        ghost var was, had := Bytes(work), Bytes(forwarded);
        res := Take(workload[i], forwarded);
        if res.LogicError? { return; }
        StillConserved(had, was, Bytes(old(work)), Bytes(workload[..i]), workload[i].data,
                       Bytes(res.value), Bytes(work));
        assert workload[..i + 1] == workload[..i] + [workload[i]];
        if old(currentSize) < minimumSize {
          GatheredMore(forwarded, res.value, was, Bytes(work), Bytes(old(work)), workload, i, ends, minimumSize);
          if |was| + |workload[i].data| >= minimumSize { ends := ends + [i + 1]; }
        }
        forwarded := res.value;
      }
      assert workload[..|workload|] == workload;
      if exactSize > 0 {
        ForwardedStretches(forwarded, Bytes(work), Bytes(old(work)) + Bytes(workload), exactSize);
      }
      res := Ok(forwarded);
    }

    /** Buffer one more key and pick what can be forwarded. */
    method Take(w: Work, forwarded: seq<Work>) returns (res: Result<seq<Work>>)
      requires Valid() && (exactSize > 0) != (minimumSize > 0)
      modifies this
      ensures Valid() && exactSize == old(exactSize) && minimumSize == old(minimumSize)
      ensures res.LogicError? <==> exactSize > 0 && Fails(old(work), w, exactSize)
      ensures exactSize > 0 && old(currentSize) + |w.data| < exactSize ==> work == old(work) + [w]
      ensures minimumSize > 0 ==>
        && res.Ok?
        && if old(currentSize) + |w.data| < minimumSize then
             res.value == forwarded && Bytes(work) == Bytes(old(work)) + w.data
           else
             && |res.value| == |forwarded| + 1 && res.value[..|forwarded|] == forwarded
             && res.value[|forwarded|].data == Bytes(old(work)) + w.data && Bytes(work) == []
      ensures res.Ok? ==>
        && currentSize < (if minimumSize > 0 then minimumSize else exactSize)
        && Bytes(res.value) + Bytes(work) == Bytes(forwarded) + (Bytes(old(work)) + w.data)
        && |forwarded| <= |res.value| && res.value[..|forwarded|] == forwarded
        && keyIdCounter == old(keyIdCounter) + (|res.value| - |forwarded|)
        && (forall j :: |forwarded| <= j < |res.value| ==>
              && res.value[j].forward && res.value[j].id == old(keyIdCounter) + (j - |forwarded|) + 1
              && (minimumSize > 0 ==> |res.value[j].data| >= minimumSize)
              && (exactSize > 0 ==> |res.value[j].data| == exactSize))
    {
      hide Bytes, SplitRun, Joined, Used, Concat, Fails, SinceKey, SameData;
      ghost var before := work;
      BytesConcat(work, [w]);
      OnePiece(w);
      work := work + [w];
      currentSize := currentSize + |w.data|;
      ghost var size := currentSize;
      if exactSize > 0 { ExactPicks(before, w, exactSize); }
      if exactSize > |Bytes(before)| { BelowTakes(before, w, exactSize); }
      ghost var keys := Joined(SplitRun(work, if exactSize > 0 then exactSize else 1, 0), exactSize, []);
      ghost var count := keyIdCounter;
      res := PickExactKeys(forwarded);
      if res.LogicError? { return; }
      if exactSize > 0 && exactSize <= size {
        ForwardedBytes(forwarded, res.value, keys, count);
        NewForwards(forwarded, res.value, keys, count);
        Regroup(Bytes(forwarded), Concat(keys), Bytes(work), []);
      }
      res := PickMinimumKey(res.value);
      if minimumSize > 0 && size >= minimumSize {
        ForwardedBytes(forwarded, res.value, [Bytes(before + [w])], count);
        NewForwards(forwarded, res.value, [Bytes(before + [w])], count);
        OneConcat(Bytes(before + [w]));
        NothingAtAll();
      }
    }

    method RemoveMarked() returns (kept: seq<Work>)
      ensures kept == Unmarked(work)
    {
      kept := [];
      for j := 0 to |work|
        invariant kept == Unmarked(work[..j])
      {
        assert work[..j + 1][..j] == work[..j];
        if !work[j].forward { kept := kept + [work[j]]; }
      }
      assert work[..|work|] == work;
    }
  }

  /** What was buffered at the start, and the received keys from one place to another. */
  ghost function Span(start: seq<Byte>, ws: seq<Work>, from: nat, to: nat): seq<Byte>
    requires from <= to <= |ws|
  {
    (if from == 0 then start else []) + Bytes(ws[from..to])
  }

  ghost function EndOf(ends: seq<nat>, j: nat): nat
    requires j <= |ends|
  {
    if j == 0 then 0 else ends[j - 1]
  }

  /** The data is what came in from one place to another, and it would be too short without its last part. */
  ghost predicate JustEnough(data: seq<Byte>, start: seq<Byte>, ws: seq<Work>, from: nat, to: nat, minimum: nat) {
    && from < to <= |ws| && data == Span(start, ws, from, to)
    && |data| >= minimum > |Span(start, ws, from, to - 1)|
  }

  /** Every forwarded key is just enough of what came in behind the one before, and the rest is what came in last. */
  ghost predicate Gathered(keys: seq<Work>, rest: seq<Byte>, start: seq<Byte>, ws: seq<Work>, i: nat,
                           ends: seq<nat>, minimum: nat) {
    && |ends| == |keys| && EndOf(ends, |ends|) <= i <= |ws|
    && (forall j :: 0 <= j < |keys| ==> JustEnough(keys[j].data, start, ws, EndOf(ends, j), ends[j], minimum))
    && rest == Span(start, ws, EndOf(ends, |ends|), i)
  }

  lemma NothingGathered(start: seq<Byte>, ws: seq<Work>, minimum: nat)
    ensures Gathered([], start, start, ws, 0, [], minimum)
  {
    assert start + Bytes(ws[0..0]) == start;
  }

  lemma GatheredMore(keys: seq<Work>, next: seq<Work>, rest: seq<Byte>, left: seq<Byte>, start: seq<Byte>,
                     ws: seq<Work>, i: nat, ends: seq<nat>, minimum: nat)
    requires Gathered(keys, rest, start, ws, i, ends, minimum) && i < |ws| && |rest| < minimum
    requires |rest| + |ws[i].data| < minimum ==> next == keys && left == rest + ws[i].data
    requires |rest| + |ws[i].data| >= minimum ==>
      |next| == |keys| + 1 && next[..|keys|] == keys && next[|keys|].data == rest + ws[i].data && left == []
    ensures |rest| + |ws[i].data| < minimum ==> Gathered(next, left, start, ws, i + 1, ends, minimum)
    ensures |rest| + |ws[i].data| >= minimum ==> Gathered(next, left, start, ws, i + 1, ends + [i + 1], minimum)
  {
    hide Bytes, JustEnough;
    var from, more := EndOf(ends, |ends|), ends + [i + 1];
    SpanNext(start, ws, from, i);
    EmptySpan(start, ws, i + 1);
    hide Span;
    if |rest| + |ws[i].data| >= minimum {
      EnoughNow(start, ws, from, i, minimum);
      forall j | 0 <= j < |next|
        ensures JustEnough(next[j].data, start, ws, EndOf(more, j), more[j], minimum)
      {
        if j < |keys| {
          assert next[j] == next[..|keys|][j] == keys[j] && EndOf(more, j) == EndOf(ends, j);
        } else {
          assert EndOf(more, j) == from;
        }
      }
    }
  }

  lemma EnoughNow(start: seq<Byte>, ws: seq<Work>, from: nat, i: nat, minimum: nat)
    requires from <= i < |ws| && |Span(start, ws, from, i)| < minimum <= |Span(start, ws, from, i + 1)|
    ensures JustEnough(Span(start, ws, from, i + 1), start, ws, from, i + 1, minimum)
  {}

  lemma SpanNext(start: seq<Byte>, ws: seq<Work>, from: nat, i: nat)
    requires from <= i < |ws|
    ensures Span(start, ws, from, i + 1) == Span(start, ws, from, i) + ws[i].data
  {
    hide Bytes;
    assert ws[from..i + 1] == ws[from..i] + [ws[i]];
    BytesConcat(ws[from..i], [ws[i]]);
    OnePiece(ws[i]);
  }

  lemma EmptySpan(start: seq<Byte>, ws: seq<Work>, i: nat)
    requires 0 < i <= |ws|
    ensures Span(start, ws, i, i) == []
  {}

  /** Forwarded work under the ids between the two counts. */
  ghost predicate Dispensed(ws: seq<Work>, from: nat, to: nat) {
    from + |ws| == to && forall j :: 0 <= j < |ws| ==> ws[j].forward && ws[j].id == from + j + 1
  }

  lemma NothingDispensed(count: nat)
    ensures Dispensed([], count, count) && Bytes([]) == []
  {}

  /** The forwarded bytes are those forwarded before and those of the new keys. */
  lemma {:induction false} ForwardedBytes(forwarded: seq<Work>, all: seq<Work>, keys: seq<seq<Byte>>, count: nat)
    requires Appended(all, forwarded, keys, count)
    ensures Bytes(all) == Bytes(forwarded) + Concat(keys)
  {
    hide Bytes, Concat;
    assert all == forwarded + all[|forwarded|..];
    BytesConcat(forwarded, all[|forwarded|..]);
    SameConcat(all[|forwarded|..], keys);
  }

  lemma OneConcat(k: seq<Byte>)
    ensures Concat([k]) == k && forall x: seq<Byte> :: x + [] == x
  {}

  lemma NewForwards(forwarded: seq<Work>, all: seq<Work>, keys: seq<seq<Byte>>, count: nat)
    requires Appended(all, forwarded, keys, count)
    ensures forall j :: |forwarded| <= j < |all| ==>
      all[j].forward && all[j].id == count + (j - |forwarded|) + 1 && all[j].data in keys
  {
    forall j | |forwarded| <= j < |all|
      ensures all[j].forward && all[j].id == count + (j - |forwarded|) + 1 && all[j].data in keys
    {
      assert all[|forwarded|..][j - |forwarded|] == all[j];
    }
  }

  lemma {:induction false} SameConcat(ws: seq<Work>, keys: seq<seq<Byte>>)
    requires |ws| == |keys| && forall j :: 0 <= j < |ws| ==> ws[j].data == keys[j]
    ensures Bytes(ws) == Concat(keys)
  {
    if ws != [] { SameConcat(ws[1..], keys[1..]); }
  }

  lemma StillConserved(had: seq<Byte>, was: seq<Byte>, old1: seq<Byte>, received: seq<Byte>, data: seq<Byte>,
                       has: seq<Byte>, is1: seq<Byte>)
    requires had + was == old1 + received && has + is1 == had + (was + data)
    ensures has + is1 == old1 + (received + data)
  {
    assert (had + was) + data == had + (was + data);
    assert (old1 + received) + data == old1 + (received + data);
  }

  /** The pieces without those marked to be taken out. */
  function Unmarked(ws: seq<Work>): seq<Work> {
    if ws == [] then []
    else
      var l := |ws| - 1;
      Unmarked(ws[..l]) + if ws[l].forward then [] else [ws[l]]
  }

  /** The bytes of all pieces are those of the buffer; of the first i the first used ones are marked. */
  ghost predicate Marked(ps: seq<Work>, ws: seq<Work>, i: nat, used: nat) {
    && |ps| == |ws|
    && (forall j :: 0 <= j < |ws| ==> ws[j].data == ps[j].data)
    && (forall j :: 0 <= j < used && j < |ws| ==> ws[j].forward)
    && (forall j :: used <= j < i && j < |ws| ==> !ws[j].forward)
  }

  lemma MarkedNext(ps: seq<Work>, ws: seq<Work>, i: nat, used: nat)
    requires Marked(ps, ws, i, used) && used <= i < |ws|
    ensures Marked(ps, ws[i := ws[i].(forward := false)], i + 1, used) && ws[i].data == ps[i].data
  {}

  /** The bytes joined so far are those behind the last key; the rest of the run goes on from them. */
  ghost predicate Joining(ps: seq<Work>, exact: nat, i: nat, data: seq<Byte>, keys: seq<seq<Byte>>, used: nat) {
    && used <= i <= |ps| && data == Bytes(ps[used..i])
    && Joined(ps, exact, []) == keys + Joined(ps[i..], exact, data)
    && Used(ps, exact, []) == if Used(ps[i..], exact, data) > 0 then i + Used(ps[i..], exact, data) else used
  }

  lemma JoiningStart(ps: seq<Work>, exact: nat)
    ensures Joining(ps, exact, 0, [], [], 0) && Marked(ps, ps, 0, 0)
    ensures ps[0..] == ps
  {
    assert ps[0..] == ps && ps[0..0] == [];
  }

  lemma JoiningStep(ps: seq<Work>, exact: nat, i: nat, data: seq<Byte>, keys: seq<seq<Byte>>, used: nat)
    requires Joining(ps, exact, i, data, keys, used) && i < |ps|
    ensures var next := data + ps[i].data;
      && (|next| == exact ==> Joining(ps, exact, i + 1, [], keys + [next], i + 1))
      && (|next| != exact ==> Joining(ps, exact, i + 1, next, keys, used))
      && |data| + |Bytes(ps[i..])| == |next| + |Bytes(ps[i + 1..])|
  {
    hide Bytes;
    assert ps[i..][1..] == ps[i + 1..] && ps[i..][0] == ps[i];
    BytesFirst(ps[i..]);
    BytesConcat(ps[used..i], [ps[i]]);
    assert ps[used..i + 1] == ps[used..i] + [ps[i]];
    OnePiece(ps[i]);
    NothingAtAll();
    assert ps[i + 1..i + 1] == [];
  }

  lemma BytesNext(ps: seq<Work>, i: nat)
    requires i < |ps|
    ensures Bytes(ps[..i + 1]) == Bytes(ps[..i]) + ps[i].data
    ensures Bytes(ps[i..]) == ps[i].data + Bytes(ps[i + 1..])
  {
    hide Bytes;
    assert ps[i..] == [ps[i]] + ps[i + 1..] && ps[..i + 1] == ps[..i] + [ps[i]];
    BytesConcat([ps[i]], ps[i + 1..]);
    BytesConcat(ps[..i], [ps[i]]);
    OnePiece(ps[i]);
  }

  lemma OnePiece(w: Work)
    ensures Bytes([w]) == w.data
  {}

  lemma JoiningEnd(ps: seq<Work>, exact: nat, data: seq<Byte>, keys: seq<seq<Byte>>, used: nat)
    requires Joining(ps, exact, |ps|, data, keys, used)
    ensures Joined(ps, exact, []) == keys && Used(ps, exact, []) == used && data == Bytes(ps[used..])
    ensures Bytes(ps[|ps|..]) == []
  {
    assert ps[|ps|..] == [] && ps[used..|ps|] == ps[used..];
  }

  lemma AppendedNothing(workload: seq<Work>, count: nat)
    ensures Appended(workload, workload, [], count)
  {}

  lemma AppendedMore(forwarded: seq<Work>, workload: seq<Work>, keys: seq<seq<Byte>>, count: nat, w: Work)
    requires Appended(forwarded, workload, keys, count) && w.forward && w.id == count + |keys| + 1
    ensures Appended(forwarded + [w], workload, keys + [w.data], count)
  {
    assert (forwarded + [w])[|workload|..] == forwarded[|workload|..] + [w];
  }

  lemma UnmarkedNothing()
    ensures Unmarked([]) == []
  {}

  lemma UnmarkedLast(ws: seq<Work>, n: nat)
    requires 0 < n <= |ws|
    ensures Unmarked(ws[..n]) == Unmarked(ws[..n - 1]) + if ws[n - 1].forward then [] else [ws[n - 1]]
  {
    assert ws[..n][..n - 1] == ws[..n - 1];
  }

  lemma {:induction false} UnmarkedIs(ws: seq<Work>, used: nat, n: nat)
    requires used <= n <= |ws| && (forall j :: 0 <= j < used ==> ws[j].forward)
    requires forall j :: used <= j < n ==> !ws[j].forward
    ensures Unmarked(ws[..n]) == ws[used..n]
    decreases n
  {
    hide Unmarked;
    if n == 0 {
      UnmarkedNothing();
    } else {
      UnmarkedLast(ws, n);
      if n > used {
        UnmarkedIs(ws, used, n - 1);
        assert ws[used..n] == ws[used..n - 1] + [ws[n - 1]];
      } else {
        UnmarkedIs(ws, used - 1, n - 1);
        assert ws[used..n] == [] == ws[used - 1..n - 1];
      }
    }
  }

  /** The same pieces, whatever their ids and marks. */
  ghost predicate SameData(x: seq<Work>, y: seq<Work>) {
    |x| == |y| && forall j :: 0 <= j < |x| ==> x[j].data == y[j].data
  }

  lemma {:induction false} SameBytes(x: seq<Work>, y: seq<Work>)
    requires SameData(x, y)
    ensures Bytes(x) == Bytes(y)
  {
    if x != [] { SameBytes(x[1..], y[1..]); }
  }

  lemma KeptPieces(ps: seq<Work>, ws: seq<Work>, used: nat)
    requires Marked(ps, ws, |ps|, used) && used <= |ps|
    ensures SameData(Unmarked(ws), ps[used..]) && Bytes(Unmarked(ws)) == Bytes(ps[used..])
  {
    hide Bytes, Unmarked;
    UnmarkedIs(ws, used, |ws|);
    assert ws[..|ws|] == ws && ws[used..|ws|] == ws[used..];
    SameBytes(ws[used..], ps[used..]);
  }

  lemma NothingPassed(ws: seq<Work>, exact: nat)
    requires exact > 0
    ensures ws[..0] + SplitRun(ws[0..], exact, 0) == SplitRun(ws, exact, 0)
  {
    assert ws[0..] == ws;
  }

  lemma AllPassed(ws: seq<Work>, exact: nat, current: nat)
    requires current < exact
    ensures ws[..|ws|] + SplitRun(ws[|ws|..], exact, current) == ws
  {}

  lemma PassOver(ws: seq<Work>, i: nat, exact: nat, current: nat)
    requires i < |ws| && current + |ws[i].data| < exact
    ensures ws[..i] + SplitRun(ws[i..], exact, current)
         == ws[..i + 1] + SplitRun(ws[i + 1..], exact, current + |ws[i].data|)
  {
    hide SplitRun;
    assert ws[i..] == [ws[i]] + ws[i + 1..];
    SplitOne(ws[i], ws[i + 1..], exact, current);
    var rest := SplitRun(ws[i + 1..], exact, current + |ws[i].data|);
    assert ws[..i + 1] == ws[..i] + [ws[i]];
    assert ws[..i] + ([ws[i]] + rest) == (ws[..i] + [ws[i]]) + rest;
  }

  lemma PassCut(ws: seq<Work>, i: nat, exact: nat, current: nat, after: seq<Work>, next: nat)
    requires i < |ws| && current < exact && current + |ws[i].data| >= exact
    requires after == ws[..i] + Cut(ws[i], exact, current) + ws[i + 1..]
    requires next == i + |Cut(ws[i], exact, current)|
    ensures next <= |after| && |after| - next < |ws| - i
    ensures ws[..i] + SplitRun(ws[i..], exact, current) == after[..next] + SplitRun(after[next..], exact, 0)
  {
    hide Cut;
    var ps := Cut(ws[i], exact, current);
    assert ws[i..][1..] == ws[i + 1..];
    assert after[next..] == ws[i + 1..] && after[..next] == ws[..i] + ps;
    var rest := SplitRun(ws[i + 1..], exact, 0);
    assert ws[..i] + (ps + rest) == (ws[..i] + ps) + rest;
  }

  lemma BytesPrefix(ws: seq<Work>, i: nat)
    requires i <= |ws|
    ensures |Bytes(ws[..i])| <= |Bytes(ws)|
  {
    hide Bytes;
    assert ws == ws[..i] + ws[i..];
    BytesConcat(ws[..i], ws[i..]);
  }

  function Datas(ws: seq<Work>): (keys: seq<seq<Byte>>)
    ensures |keys| == |ws|
  {
    seq(|ws|, i requires 0 <= i < |ws| => ws[i].data)
  }

  lemma StretchFits(size: nat, exact: nat, i: nat)
    requires exact > 0 && i < size / exact
    ensures 0 <= i * exact && i * exact + exact <= size
  {
    NextMultiple(i, exact);
    Monotone(i + 1, size / exact, exact);
  }

  /** A stream of bytes in stretches of the exact size, without the rest that is shorter. */
  function Stretches(stream: seq<Byte>, exact: nat): (keys: seq<seq<Byte>>)
    requires exact > 0
  {
    seq(|stream| / exact, i requires 0 <= i < |stream| / exact =>
      StretchFits(|stream|, exact, i);
      stream[i * exact..i * exact + exact])
  }

  /** Keys of an exact size that make up a stream but for a shorter rest are its stretches. */
  lemma {:induction false} ExactStretches(keys: seq<seq<Byte>>, rest: seq<Byte>, stream: seq<Byte>, exact: nat)
    requires exact > 0 && |rest| < exact && Concat(keys) + rest == stream
    requires forall k :: k in keys ==> |k| == exact
    ensures keys == Stretches(stream, exact)
  {
    ConcatSize(keys, exact);
    QuotientOf(|keys|, exact, |rest|);
    forall i | 0 <= i < |keys|
      ensures keys[i] == Stretches(stream, exact)[i]
    {
      Stretch(keys, rest, exact, i);
    }
  }

  lemma ForwardedStretches(forwarded: seq<Work>, rest: seq<Byte>, stream: seq<Byte>, exact: nat)
    requires exact > 0 && |rest| < exact && Bytes(forwarded) + rest == stream
    requires forall j :: 0 <= j < |forwarded| ==> |forwarded[j].data| == exact
    ensures Datas(forwarded) == Stretches(stream, exact)
  {
    SameConcat(forwarded, Datas(forwarded));
    ExactStretches(Datas(forwarded), rest, stream, exact);
  }

  lemma {:induction false} Stretch(keys: seq<seq<Byte>>, rest: seq<Byte>, exact: nat, i: nat)
    requires i < |keys| && forall k :: k in keys ==> |k| == exact
    ensures IsStretch(keys[i], Concat(keys) + rest, i * exact)
    decreases |keys|
  {
    hide Concat;
    assert keys == [keys[0]] + keys[1..];
    ConcatFirst(keys[0], keys[1..]);
    assert Concat(keys) + rest == keys[0] + (Concat(keys[1..]) + rest);
    if i > 0 {
      Stretch(keys[1..], rest, exact, i - 1);
      NextMultiple(i - 1, exact);
      StretchBehind(keys[i], keys[0], Concat(keys[1..]) + rest, (i - 1) * exact);
    }
  }

  /** All bytes of a list of workloads, in order. */
  function Received(loads: seq<seq<Work>>): seq<Byte> {
    if loads == [] then [] else Received(loads[..|loads| - 1]) + Bytes(loads[|loads| - 1])
  }

  /**
   * A run in the exact mode: with less than the exact size buffered at the start no call fails, and the keys that
   * all calls forward are the stretches of everything received, numbered consecutively.
   */
  method ProcessAll(r: Resizer, loads: seq<seq<Work>>) returns (forwarded: seq<Work>)
    requires r.Valid() && r.exactSize > 0 && r.minimumSize == 0 && r.currentSize < r.exactSize
    requires forall i :: 0 <= i < |loads| ==> loads[i] != []
    modifies r
    ensures r.Valid() && r.exactSize == old(r.exactSize) && r.currentSize < r.exactSize
    ensures Datas(forwarded) == Stretches(Bytes(old(r.work)) + Received(loads), r.exactSize)
    ensures Bytes(forwarded) + Bytes(r.work) == Bytes(old(r.work)) + Received(loads)
    ensures Dispensed(forwarded, old(r.keyIdCounter), r.keyIdCounter)
  {
    hide Bytes, Fails, Stretches, Datas;
    forwarded := [];
    NothingDispensed(r.keyIdCounter);
    assert loads[..0] == [];
    for i := 0 to |loads|
      invariant r.Valid() && r.exactSize == old(r.exactSize) && r.minimumSize == 0 && r.currentSize < r.exactSize
      invariant Bytes(forwarded) + Bytes(r.work) == Bytes(old(r.work)) + Received(loads[..i])
      invariant forall j :: 0 <= j < |forwarded| ==> |forwarded[j].data| == r.exactSize
      invariant Dispensed(forwarded, old(r.keyIdCounter), r.keyIdCounter)
    {
      BelowTakes(r.work, loads[i][0], r.exactSize);
      ghost var was, had := Bytes(r.work), Bytes(forwarded);
      var res := r.Process(loads[i], true);
      StretchSizes(res.value, was + Bytes(loads[i]), r.exactSize);
      BytesConcat(forwarded, res.value);
      Regroup(had, Bytes(res.value), Bytes(r.work), []);
      StillConserved(had, was, Bytes(old(r.work)), Received(loads[..i]), Bytes(loads[i]),
                     Bytes(forwarded + res.value), Bytes(r.work));
      assert loads[..i + 1][..i] == loads[..i];
      forwarded := forwarded + res.value;
    }
    assert loads[..|loads|] == loads;
    ForwardedStretches(forwarded, Bytes(r.work), Bytes(old(r.work)) + Received(loads), r.exactSize);
  }

  lemma StretchSizes(ws: seq<Work>, stream: seq<Byte>, exact: nat)
    requires exact > 0 && Datas(ws) == Stretches(stream, exact)
    ensures forall j :: 0 <= j < |ws| ==> |ws[j].data| == exact
  {
    forall j | 0 <= j < |ws|
      ensures |ws[j].data| == exact
    {
      assert ws[j].data == Datas(ws)[j] == Stretches(stream, exact)[j];
      StretchFits(|stream|, exact, j);
    }
  }

  /** Two modules that receive the same bytes, cut in whatever way, forward the same keys. */
  method SameKeys(r: Resizer, t: Resizer, loadsR: seq<seq<Work>>, loadsT: seq<seq<Work>>)
    returns (forwardedR: seq<Work>, forwardedT: seq<Work>)
    requires r != t && r.Valid() && t.Valid() && Bytes(r.work) == Bytes(t.work)
    requires r.exactSize == t.exactSize > r.currentSize && r.minimumSize == t.minimumSize == 0
    requires forall i :: 0 <= i < |loadsR| ==> loadsR[i] != []
    requires forall i :: 0 <= i < |loadsT| ==> loadsT[i] != []
    requires Received(loadsR) == Received(loadsT)
    modifies r, t
    ensures Datas(forwardedR) == Datas(forwardedT) && Bytes(r.work) == Bytes(t.work)
  {
    hide Bytes, Stretches, Datas;
    forwardedR := ProcessAll(r, loadsR);
    forwardedT := ProcessAll(t, loadsT);
    SameBytesOfSameDatas(forwardedR, forwardedT);
    Cancel(Bytes(forwardedR), Bytes(r.work), Bytes(t.work));
  }

  lemma Cancel(x: seq<Byte>, y: seq<Byte>, z: seq<Byte>)
    requires x + y == x + z
    ensures y == z
  {
    assert y == (x + y)[|x|..] && z == (x + z)[|x|..];
  }

  lemma SameBytesOfSameDatas(x: seq<Work>, y: seq<Work>)
    requires Datas(x) == Datas(y)
    ensures Bytes(x) == Bytes(y)
  {
    SameConcat(x, Datas(x));
    SameConcat(y, Datas(y));
  }

  /**
   * The runs get out of step when the exact size is lowered: seven bytes are buffered for keys of eight, then keys
   * of four are asked for, and the next two bytes make the source throw.
   */
  method LoweredSizeFails() returns (res: Result<seq<Work>>)
    ensures res.LogicError?
  {
    var seven, two := Piece(seq(7, _ => 0)), Piece(seq(2, _ => 0));
    var r := new Resizer();
    r.SetExactKeySize(8);
    NothingAtAll();
    OnePiece(seven);
    BelowTakes([], seven, 8);
    res := r.Process([seven], true);
    assert r.work == [seven];
    r.SetExactKeySize(4);
    SevenOutOfStep(seven, two);
    res := r.Process([two], true);
  }

  lemma SevenOutOfStep(seven: Work, two: Work)
    requires |seven.data| == 7 && |two.data| == 2
    ensures Fails([seven], two, 4)
  {
    var four, three := Piece(seven.data[..4]), Piece(seven.data[4..]);
    assert Cut(seven, 4, 0) == [four] + Cut(three, 4, 0) == [four, three];
    SplitLast(seven, 4, 0);
    assert SinceCut([seven], 4, 0) == SinceCut([], 4, 0) == 0;
    assert [four, three][1..] == [three];
    assert SinceKey([four, three], 4, 0) == SinceKey([three], 4, 0) == SinceKey([], 4, 3) == 3;
  }
}
