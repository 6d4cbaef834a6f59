/** Rings of keys of one fixed size: pushed keys are cut and joined so that only the last key may be shorter. */
module KeyRings {
  import opened Words
  import opened Multiples
  import opened Streams

  datatype Key = Key(id: nat, data: seq<Byte>)

  /** All bytes of the keys, in order. */
  function Bytes(keys: seq<Key>): seq<Byte> {
    if keys == [] then [] else Bytes(keys[..|keys| - 1]) + keys[|keys| - 1].data
  }

  /** Every key but the last is full; the last one is not empty and not over-full. */
  ghost predicate Chunked(keys: seq<Key>, size: nat) {
    && (forall i :: 0 <= i < |keys| - 1 ==> |keys[i].data| == size)
    && (keys != [] ==> 1 <= |keys[|keys| - 1].data| <= size)
  }

  /** The same, but the last key may still be empty. */
  ghost predicate Filling(keys: seq<Key>, size: nat) {
    && (forall i :: 0 <= i < |keys| - 1 ==> |keys[i].data| == size)
    && (keys != [] ==> |keys[|keys| - 1].data| <= size)
  }

  /** New keys get the next ids; the keys that were there keep theirs. */
  ghost predicate Numbered(before: seq<Key>, keys: seq<Key>, nextId: nat) {
    && |before| <= |keys|
    && (forall i :: 0 <= i < |before| ==> keys[i].id == before[i].id)
    && (forall i :: |before| <= i < |keys| ==> keys[i].id == nextId + (i - |before|))
  }

  lemma BytesAppend(keys: seq<Key>, k: Key)
    ensures Bytes(keys + [k]) == Bytes(keys) + k.data
  {
    assert (keys + [k])[..|keys|] == keys;
  }

  class KeyRing {
    const keySize: nat
    var keys: seq<Key>
    var nextId: nat

    constructor (keySize: nat, nextId: nat)
      ensures this.keySize == keySize && this.nextId == nextId && keys == []
    {
      this.keySize, this.nextId, keys := keySize, nextId, [];
    }

    method AddEmptyKey()
      modifies this
      ensures keys == old(keys) + [Key(old(nextId), [])] && nextId == old(nextId) + 1
    {
      keys := keys + [Key(nextId, [])];
      nextId := nextId + 1;
    }

    /** Add a key at the end: fill the last key first, then add as many new ones as it takes. */
    method PushBack(data: seq<Byte>)
      requires Chunked(keys, keySize)
      modifies this
      ensures Chunked(keys, keySize) && Numbered(old(keys), keys, old(nextId))
      ensures nextId == old(nextId) + (|keys| - |old(keys)|)
      ensures keySize == 0 ==> keys == old(keys)
      ensures keySize > 0 ==> Bytes(keys) == old(Bytes(keys)) + data
    {
      hide Bytes, Filling, Chunked, Numbered;
      if keySize == 0 {
        SameNumbers(keys, nextId);
        return;
      }
      ghost var before := keys;
      StartFilling(before, keySize, nextId);
      if data != [] && keys == [] {
        AddEmptyKey();
        assert keys == [Key(old(nextId), [])];
      }
      var at := 0;
      assert data[..0] == [];
      while at < |data|
        invariant at <= |data| && Filling(keys, keySize) && (data != [] ==> keys != []) && |before| <= |keys|
        invariant at == |data| ==> Chunked(keys, keySize)
        invariant Numbered(before, keys, old(nextId)) && nextId == old(nextId) + (|keys| - |before|)
        invariant Bytes(keys) == Bytes(before) + data[..at]
        decreases |data| - at, LastFull(keys, keySize)
      {
        var last := keys[|keys| - 1];
        LastFits(keys, keySize);
        var free := keySize - |last.data|;
        var count := if free < |data| - at then free else |data| - at;
        if count == 0 {
          EmptyKeyAdded(before, keys, keySize, old(nextId), nextId);
          AddEmptyKey();
          continue;
        }
        KeyFilled(before, keys, keySize, old(nextId), data[at..at + count]);
        assert data[..at + count] == data[..at] + data[at..at + count];
        keys := Filled(keys, data[at..at + count]);
        at := at + count;
      }
      assert data[..|data|] == data;
    }
  }

  predicate LastFull(keys: seq<Key>, size: nat) {
    keys != [] && |keys[|keys| - 1].data| == size
  }

  lemma LastFits(keys: seq<Key>, size: nat)
    requires Filling(keys, size) && keys != []
    ensures |keys[|keys| - 1].data| <= size
  {}

  lemma SameNumbers(keys: seq<Key>, nextId: nat)
    ensures Numbered(keys, keys, nextId)
  {}

  lemma StartFilling(keys: seq<Key>, size: nat, nextId: nat)
    requires Chunked(keys, size)
    ensures Filling(keys, size) && Numbered(keys, keys, nextId)
    ensures keys == [] ==> Filling([Key(nextId, [])], size) && Numbered([], [Key(nextId, [])], nextId)
    ensures Bytes([]) == [] && Bytes([Key(nextId, [])]) == []
  {}

  lemma EmptyKeyAdded(before: seq<Key>, keys: seq<Key>, size: nat, firstId: nat, nextId: nat)
    requires size > 0 && Filling(keys, size) && LastFull(keys, size) && Numbered(before, keys, firstId)
    requires |before| <= |keys| && nextId == firstId + (|keys| - |before|)
    ensures var next := keys + [Key(nextId, [])];
      && Filling(next, size) && Numbered(before, next, firstId) && Bytes(next) == Bytes(keys)
      && !LastFull(next, size)
  {
    hide Bytes, Filling, Numbered;
    BytesAppend(keys, Key(nextId, []));
    EmptyKeyFills(keys, size, nextId);
    OneMoreNumbered(before, keys, firstId, Key(nextId, []));
  }

  lemma EmptyKeyFills(keys: seq<Key>, size: nat, id: nat)
    requires Filling(keys, size) && LastFull(keys, size)
    ensures Filling(keys + [Key(id, [])], size)
  {}

  lemma OneMoreNumbered(before: seq<Key>, keys: seq<Key>, firstId: nat, k: Key)
    requires |before| <= |keys| && Numbered(before, keys, firstId) && k.id == firstId + (|keys| - |before|)
    ensures Numbered(before, keys + [k], firstId)
  {}

  /** The last key takes more bytes. */
  function Filled(keys: seq<Key>, part: seq<Byte>): seq<Key>
    requires keys != []
  {
    var last := keys[|keys| - 1];
    keys[..|keys| - 1] + [Key(last.id, last.data + part)]
  }

  lemma KeyFilled(before: seq<Key>, keys: seq<Key>, size: nat, firstId: nat, part: seq<Byte>)
    requires Filling(keys, size) && keys != [] && part != [] && Numbered(before, keys, firstId)
    requires |keys[|keys| - 1].data| + |part| <= size
    ensures var next := Filled(keys, part);
      && Filling(next, size) && Chunked(next, size) && Numbered(before, next, firstId)
      && Bytes(next) == Bytes(keys) + part && |next| == |keys|
  {
    var l := |keys| - 1;
    var last := keys[l];
    assert Bytes(keys) == Bytes(keys[..l]) + last.data;
    hide Bytes;
    BytesAppend(keys[..l], Key(last.id, last.data + part));
  }

  ghost predicate AllFull(keys: seq<Key>, size: nat) {
    forall i :: 0 <= i < |keys| ==> |keys[i].data| == size
  }

  lemma {:induction false} FullLength(keys: seq<Key>, size: nat)
    requires AllFull(keys, size)
    ensures |Bytes(keys)| == |keys| * size
  {
    if keys != [] {
      FullLength(keys[..|keys| - 1], size);
      assert |keys| * size == (|keys| - 1) * size + size;
    }
  }

  /** Key i of a ring is the i-th stretch of its bytes. */
  lemma {:induction false} ChunkIs(keys: seq<Key>, size: nat, i: nat)
    requires Chunked(keys, size) && i < |keys|
    ensures IsStretch(keys[i].data, Bytes(keys), i * size)
    decreases |keys|
  {
    hide Bytes, IsStretch;
    var l := |keys| - 1;
    var rest := keys[..l];
    BytesAppend(rest, keys[l]);
    assert rest + [keys[l]] == keys;
    if i < l {
      ChunkIs(rest, size, i);
      StretchPrefix(keys[i].data, Bytes(rest), keys[l].data, i * size);
    } else {
      FullLength(rest, size);
      StretchLast(Bytes(rest), keys[l].data);
    }
  }

  /** As many keys as the bytes need, and full ones where the bytes allow it. */
  lemma ChunkCount(keys: seq<Key>, size: nat, i: nat)
    requires size > 0 && Chunked(keys, size)
    ensures i < |keys| <==> i * size < |Bytes(keys)|
    ensures (i + 1) * size <= |Bytes(keys)| ==> i < |keys| && |keys[i].data| == size
  {
    if keys != [] {
      var l := |keys| - 1;
      FullLength(keys[..l], size);
      if i <= l { Monotone(i, l, size); } else { Monotone(l + 1, i, size); }
      assert (i + 1) * size == i * size + size && (l + 1) * size == l * size + size;
      if i < l { Monotone(i + 1, l, size); }
    }
  }
}
