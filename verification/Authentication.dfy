/** Authentication of both parties with mirrored key stores, and the refilling of the stores from passing keys. */
module Authentication {
  import opened Words
  import opened KeyRings
  import opened KeyStores
  import opened OneTimePad
  import opened Options

  /** No context, or the finished hash of what went into it: the tag before it is masked. */
  datatype Context = NullContext | HashContext(hash: seq<Byte>)

  datatype Tags = Tags(inAlice: seq<Byte>, outAlice: seq<Byte>, inBob: seq<Byte>, outBob: seq<Byte>)

  datatype Message = Message(id: nat, tagIncoming: seq<Byte>, tagOutgoing: seq<Byte>, threshold: nat)

  /** What a party remembers between sending its tags and receiving those of the peer. */
  datatype Pending = Pending(id: nat, tags: Tags, inKeys: seq<nat>, outKeys: seq<nat>)

  /** The stores of one party and its threshold. */
  datatype Keeper = Keeper(incoming: Store, outgoing: Store, threshold: nat) {
    ghost predicate Valid() {
      incoming.Valid() && outgoing.Valid()
    }
  }

  ghost function KeysFor(ctx: Context, st: Store): (ids: seq<nat>)
    ensures forall id :: id in ids ==> id in st.slots
  {
    if ctx.NullContext? then [] else FirstRun(st.slots, |ctx.hash| * 2)
  }

  /** The store holds as many keys in a row as two tags of the context take. */
  ghost predicate HoldsRun(ctx: Context, st: Store) {
    ctx.HashContext? && |ctx.hash| > 0 && exists i: nat :: RunAt(st.slots, i, Needed(|ctx.hash| * 2))
  }

  lemma KeysForRun(ctx: Context, st: Store)
    ensures KeysFor(ctx, st) != [] <==> HoldsRun(ctx, st)
  {
    hide FirstRun, RunAt;
    if ctx.HashContext? { RunFound(st.slots, |ctx.hash| * 2); }
  }

  lemma EnoughMaterial(ctx: Context, st: Store)
    requires st.Valid() && KeysFor(ctx, st) != []
    ensures ctx.HashContext? && |Material(st.slots, KeysFor(ctx, st))| >= 2 * |ctx.hash| > 0
  {
    MaterialSize(st.slots, KeysFor(ctx, st));
  }

  /** The first key is Alice's, the second is Bob's. */
  ghost function FinalKey(asAlice: bool, ctx: Context, st: Store): (k: seq<Byte>)
    requires st.Valid() && KeysFor(ctx, st) != []
    ensures ctx.HashContext? && |k| == |ctx.hash| > 0
  {
    EnoughMaterial(ctx, st);
    var m := Material(st.slots, KeysFor(ctx, st));
    if asAlice then m[..|ctx.hash|] else m[|ctx.hash|..2 * |ctx.hash|]
  }

  /** The keys of the two roles are consecutive parts of the material: no byte masks both tags. */
  lemma RolesApart(ctx: Context, st: Store)
    requires st.Valid() && KeysFor(ctx, st) != []
    ensures ctx.HashContext? && 2 * |ctx.hash| <= |Material(st.slots, KeysFor(ctx, st))|
    ensures FinalKey(true, ctx, st) + FinalKey(false, ctx, st) == Material(st.slots, KeysFor(ctx, st))[..2 * |ctx.hash|]
  {
    hide FirstRun, Material;
    EnoughMaterial(ctx, st);
  }

  /** The hash masked by the key of the role; nothing for a null context or when the store runs out of keys. */
  ghost function TagFor(asAlice: bool, ctx: Context, st: Store): (tag: Option<seq<Byte>>)
    requires st.Valid()
    ensures tag.Some? <==> KeysFor(ctx, st) != []
    ensures tag.Some? ==> ctx.HashContext? && |tag.value| == |ctx.hash| > 0
  {
    if KeysFor(ctx, st) == [] then None else Some(Masked(ctx.hash, FinalKey(asAlice, ctx, st)))
  }

  ghost function Prepared(a: Keeper, id: nat, ctxIn: Context, ctxOut: Context): Option<Pending>
    requires a.Valid()
  {
    if KeysFor(ctxIn, a.incoming) == [] || KeysFor(ctxOut, a.outgoing) == [] then None
    else
      Some(Pending(id,
                   Tags(TagFor(true, ctxIn, a.incoming).value, TagFor(true, ctxOut, a.outgoing).value,
                        TagFor(false, ctxIn, a.incoming).value, TagFor(false, ctxOut, a.outgoing).value),
                   KeysFor(ctxIn, a.incoming), KeysFor(ctxOut, a.outgoing)))
  }

  function MessageOf(isAlice: bool, p: Pending, threshold: nat): Message {
    if isAlice then Message(p.id, p.tags.inAlice, p.tags.outAlice, threshold)
    else Message(p.id, p.tags.inBob, p.tags.outBob, 0)
  }

  /** The final test: the own computation of the tags of the peer against what the peer has sent. */
  function Verdict(isAlice: bool, p: Pending, peer: Message): bool {
    && p.id == peer.id
    && (if isAlice then p.tags.inBob == peer.tagOutgoing && p.tags.outBob == peer.tagIncoming
        else p.tags.inAlice == peer.tagOutgoing && p.tags.outAlice == peer.tagIncoming)
  }

  /** Used keys go, and Bob takes over Alice's threshold. */
  function Concluded(isAlice: bool, a: Keeper, p: Pending, peer: Message): (b: Keeper)
    requires a.Valid()
    ensures b.Valid()
  {
    if !Verdict(isAlice, p, peer) then a
    else Keeper(Deleted(a.incoming, p.inKeys), Deleted(a.outgoing, p.outKeys),
                if isAlice then a.threshold else peer.threshold)
  }

  /** Eat bytes from the high end of the key, at most as many as the threshold, when the store is below it. */
  function Nibbled(st: Store, key: seq<Byte>, threshold: nat): (r: (Store, seq<Byte>))
    requires st.Valid()
    ensures r.0.Valid() && r.1 <= key
  {
    if st.Available() >= threshold then (st, key)
    else
      var rest := |key| - if |key| < threshold then |key| else threshold;
      (Stored(st, key[rest..]), key[..rest])
  }

  /** Alice fills incoming first, Bob outgoing. */
  function Refilled(isAlice: bool, a: Keeper, key: seq<Byte>): (r: (Keeper, seq<Byte>))
    requires a.Valid()
    ensures r.0.Valid() && r.1 <= key
  {
    if isAlice then
      var x := Nibbled(a.incoming, key, a.threshold);
      var y := Nibbled(a.outgoing, x.1, a.threshold);
      (Keeper(x.0, y.0, a.threshold), y.1)
    else
      var y := Nibbled(a.outgoing, key, a.threshold);
      var x := Nibbled(a.incoming, y.1, a.threshold);
      (Keeper(x.0, y.0, a.threshold), x.1)
  }

  /** A store below the threshold takes the whole quanta of what is eaten from the high end of the key. */
  lemma NibbleFills(st: Store, key: seq<Byte>, threshold: nat)
    requires Grown(st) && st.Available() < threshold
    ensures var eaten, r := (if |key| < threshold then |key| else threshold), Nibbled(st, key, threshold);
      && r.1 == key[..|key| - eaten] && Grown(r.0) && KeptWhole(st, key[|key| - eaten..], r.0)
      && (st.last + eaten / QUANTUM < AMOUNT ==> r.0.Available() == st.Available() + (eaten - eaten % QUANTUM))
  {
    hide KeptWhole, Stored;
    StoredIs(st, key[|key| - if |key| < threshold then |key| else threshold..]);
  }

  /** An amplified key that is long enough brings both stores up to the threshold, but for less than a quantum. */
  lemma RefillFills(isAlice: bool, a: Keeper, key: seq<Byte>)
    requires Grown(a.incoming) && Grown(a.outgoing) && |key| >= 2 * a.threshold
    requires a.incoming.last + a.threshold / QUANTUM < AMOUNT && a.outgoing.last + a.threshold / QUANTUM < AMOUNT
    ensures var t := Refilled(isAlice, a, key).0;
      && t.incoming.Available() + QUANTUM > a.threshold && t.outgoing.Available() + QUANTUM > a.threshold
      && (a.incoming.Available() >= a.threshold ==> t.incoming == a.incoming)
      && (a.outgoing.Available() >= a.threshold ==> t.outgoing == a.outgoing)
  {
    hide KeptWhole, Stored, Nibbled;
    NibbleOrNot(a.incoming, key, a.threshold);
    NibbleOrNot(a.outgoing, key, a.threshold);
    NibbleOrNot(a.outgoing, Nibbled(a.incoming, key, a.threshold).1, a.threshold);
    NibbleOrNot(a.incoming, Nibbled(a.outgoing, key, a.threshold).1, a.threshold);
  }

  lemma NibbleOrNot(st: Store, key: seq<Byte>, threshold: nat)
    requires Grown(st) && st.last + threshold / QUANTUM < AMOUNT
    ensures var r := Nibbled(st, key, threshold);
      && |r.1| + threshold >= |key|
      && (st.Available() >= threshold ==> r == (st, key))
      && (|key| >= threshold ==> r.0.Available() + QUANTUM > threshold)
  {
    if st.Available() < threshold { NibbleFills(st, key, threshold); }
  }

  class Authenticator {
    const isAlice: bool
    const incoming: KeyDb
    const outgoing: KeyDb
    var threshold: nat

    ghost function Repr(): set<object> {
      {this, incoming, outgoing}
    }

    ghost function View(): Keeper
      reads this, incoming, outgoing
    {
      Keeper(incoming.View(), outgoing.View(), threshold)
    }

    ghost predicate Valid()
      reads this, incoming, outgoing
    {
      incoming != outgoing && View().Valid()
    }

    constructor (isAlice: bool)
      ensures Valid() && fresh(incoming) && fresh(outgoing) && this.isAlice == isAlice
      ensures View() == Keeper(Store(map[], 0), Store(map[], 0), 1024)
    {
      this.isAlice := isAlice;
      incoming := new KeyDb();
      outgoing := new KeyDb();
      threshold := 1024;
    }

    method SetThreshold(threshold: nat)
      modifies this
      ensures this.threshold == threshold
    {
      this.threshold := threshold;
    }

    /** The first or the second key of the given size in the material of these ids. */
    method PickFinalKey(asAlice: bool, db: KeyDb, ids: seq<nat>, size: nat) returns (finalKey: seq<Byte>)
      requires db.View().Valid() && (forall id :: id in ids ==> id in db.slots)
      requires |Material(db.slots, ids)| >= 2 * size > 0
      ensures finalKey == var m := Material(db.slots, ids); if asAlice then m[..size] else m[size..2 * size]
    {
      hide Material, Bytes, Chunked;
      var slices := db.Ring(ids);
      var pieces := slices.keys;
      var ring := new KeyRing(size, 0);
      NoBytes(size);
      assert pieces[..0] == [];
      for i := 0 to |pieces|
        invariant Chunked(ring.keys, size) && fresh(ring) && Bytes(ring.keys) == Bytes(pieces[..i])
      {
        BytesAppend(pieces[..i], pieces[i]);
        assert pieces[..i + 1] == pieces[..i] + [pieces[i]];
        ring.PushBack(pieces[i].data);
      }
      assert pieces[..|pieces|] == pieces;
      TwoChunks(ring.keys, size);
      finalKey := if asAlice then ring.keys[0].data else ring.keys[1].data;
    }

    /** The tag of one context in one role, and the ids of the keys it has used. */
    method Tag(asAlice: bool, ctx: Context, db: KeyDb) returns (tag: Option<seq<Byte>>, ids: seq<nat>)
      requires db.View().Valid()
      ensures tag == TagFor(asAlice, ctx, db.View()) && ids == KeysFor(ctx, db.View())
    {
      hide Masked, FirstRun, Material;
      if ctx.NullContext? { return None, []; }
      ids := db.FindContinuous(|ctx.hash| * 2);
      if ids == [] { return None, ids; }
      EnoughMaterial(ctx, db.View());
      var finalKey := PickFinalKey(asAlice, db, ids, |ctx.hash|);
      var context := new CryptoXor();
      context.AddMemory(ctx.hash);
      assert [] + ctx.hash == ctx.hash;
      tag := context.Finalize(finalKey);
    }

    /** All four tags; without one of them there is nothing to send. */
    method Prepare(id: nat, ctxIn: Context, ctxOut: Context) returns (pending: Option<Pending>)
      requires Valid()
      ensures pending == Prepared(View(), id, ctxIn, ctxOut)
    {
      hide TagFor, KeysFor;
      pending := None;
      var inAlice, keysInAlice := Tag(true, ctxIn, incoming);
      if inAlice == None { return; }
      var outAlice, keysOutAlice := Tag(true, ctxOut, outgoing);
      if outAlice == None { return; }
      var inBob, keysInBob := Tag(false, ctxIn, incoming);
      if inBob == None { return; }
      var outBob, keysOutBob := Tag(false, ctxOut, outgoing);
      if outBob == None { return; }
      assert keysInAlice == keysInBob && keysOutAlice == keysOutBob;
      pending := Some(Pending(id, Tags(inAlice.value, outAlice.value, inBob.value, outBob.value),
                              keysInAlice, keysOutAlice));
    }

    /** The final test; if it holds the used keys are deleted, once for each role. */
    method Conclude(p: Pending, peer: Message) returns (authentic: bool)
      requires Valid()
      modifies Repr()
      ensures Valid() && authentic == Verdict(isAlice, p, peer)
      ensures View() == Concluded(isAlice, old(View()), p, peer)
    {
      hide Deleted;
      authentic := p.id == peer.id;
      if isAlice {
        authentic := authentic && p.tags.inBob == peer.tagOutgoing && p.tags.outBob == peer.tagIncoming;
      } else {
        authentic := authentic && p.tags.inAlice == peer.tagOutgoing && p.tags.outAlice == peer.tagIncoming;
      }
      if authentic {
        DeletedTwice(incoming.View(), p.inKeys);
        DeletedTwice(outgoing.View(), p.outKeys);
        incoming.Delete(p.inKeys);
        incoming.Delete(p.inKeys);
        outgoing.Delete(p.outKeys);
        outgoing.Delete(p.outKeys);
        if !isAlice && threshold != peer.threshold { SetThreshold(peer.threshold); }
      }
    }

    /** Store some bytes: whole quanta go into the store, a shorter remainder is dropped. */
    method StoreBytes(bytes: seq<Byte>, db: KeyDb)
      requires db.View().Valid()
      modifies db
      ensures db.View() == Stored(old(db.View()), bytes)
    {
      hide Bytes, Chunked, Inserted, Stored, Tail;
      var ring := new KeyRing(QUANTUM, 0);
      NoBytes(QUANTUM);
      ring.PushBack(bytes);
      assert [] + bytes == bytes;
      var pieces := ring.keys;
      TailStart(bytes);
      for i := 0 to |pieces|
        invariant db.View().Valid()
        invariant Stored(db.View(), Tail(bytes, i)) == Stored(old(db.View()), bytes)
      {
        StoreStep(db.View(), bytes, pieces, i);
        if |pieces[i].data| == QUANTUM {
          var id := db.Insert(pieces[i].data);
        }
      }
      TailEnd(db.View(), bytes, pieces);
    }

    method Nibble(key: seq<Byte>, db: KeyDb, limit: nat) returns (rest: seq<Byte>)
      requires db.View().Valid()
      modifies db
      ensures var n := |key| - if |key| < limit then |key| else limit;
        db.View() == Stored(old(db.View()), key[n..]) && rest == key[..n]
    {
      var eat := if |key| < limit then |key| else limit;
      if eat == 0 {
        assert key[..|key|] == key && key[|key|..] == [];
        return key;
      }
      StoreBytes(key[|key| - eat..], db);
      rest := key[..|key| - eat];
    }

    /** Fill up both stores from an amplified key, in an order that matches the peer's. */
    method RefillLocalKeystores(key: seq<Byte>, amplified: bool) returns (rest: seq<Byte>)
      requires Valid()
      modifies incoming, outgoing
      ensures Valid()
      ensures (View(), rest) == if amplified then Refilled(isAlice, old(View()), key) else (old(View()), key)
    {
      hide Stored;
      rest := key;
      if amplified {
        if isAlice {
          if incoming.Available() < threshold { rest := Nibble(rest, incoming, threshold); }
          if outgoing.Available() < threshold { rest := Nibble(rest, outgoing, threshold); }
        } else {
          if outgoing.Available() < threshold { rest := Nibble(rest, outgoing, threshold); }
          if incoming.Available() < threshold { rest := Nibble(rest, incoming, threshold); }
        }
      }
    }
  }

  lemma NoBytes(size: nat)
    ensures Bytes([]) == [] && Chunked([], size)
  {}

  lemma TwoChunks(keys: seq<Key>, size: nat)
    requires Chunked(keys, size) && |Bytes(keys)| >= 2 * size > 0
    ensures |keys| >= 2 && keys[0].data == Bytes(keys)[..size] && keys[1].data == Bytes(keys)[size..2 * size]
  {
    hide Bytes, Chunked;
    ChunkCount(keys, size, 0);
    ChunkCount(keys, size, 1);
    ChunkIs(keys, size, 0);
    ChunkIs(keys, size, 1);
  }

  /** What is left to store after i pieces. */
  function Tail(bytes: seq<Byte>, i: nat): seq<Byte> {
    if i * QUANTUM <= |bytes| then bytes[i * QUANTUM..] else []
  }

  lemma TailStart(bytes: seq<Byte>)
    ensures Tail(bytes, 0) == bytes
  {}

  lemma TailEnd(st: Store, bytes: seq<Byte>, pieces: seq<Key>)
    requires st.Valid() && Chunked(pieces, QUANTUM) && Bytes(pieces) == bytes
    ensures Stored(st, Tail(bytes, |pieces|)) == st
  {
    hide Bytes, Chunked;
    ChunkCount(pieces, QUANTUM, |pieces|);
  }

  /** A full piece is inserted, a shorter last one is dropped. */
  lemma StoreStep(st: Store, bytes: seq<Byte>, pieces: seq<Key>, i: nat)
    requires st.Valid() && Chunked(pieces, QUANTUM) && Bytes(pieces) == bytes && i < |pieces|
    ensures Stored(st, Tail(bytes, i))
         == Stored(if |pieces[i].data| == QUANTUM then Inserted(st, pieces[i].data) else st, Tail(bytes, i + 1))
  {
    hide Bytes, Chunked, Inserted;
    ChunkCount(pieces, QUANTUM, i);
    ChunkIs(pieces, QUANTUM, i);
    var rest := Tail(bytes, i);
    if (i + 1) * QUANTUM <= |bytes| {
      assert rest[..QUANTUM] == pieces[i].data;
      assert rest[QUANTUM..] == Tail(bytes, i + 1);
    } else {
      ShortPiece(pieces, QUANTUM, i);
    }
  }

  lemma ShortPiece(pieces: seq<Key>, size: nat, i: nat)
    requires size > 0 && Chunked(pieces, size) && i < |pieces| && |Bytes(pieces)| < (i + 1) * size
    ensures |pieces[i].data| < size
  {
    hide Bytes;
    ChunkIs(pieces, size, i);
  }

  lemma DeletedTwice(st: Store, ids: seq<nat>)
    requires st.Valid()
    ensures Deleted(Deleted(st, ids), ids) == Deleted(st, ids)
  {}

  lemma MaskInjective(x: seq<Byte>, y: seq<Byte>, k: seq<Byte>)
    requires |x| == |y| <= |k|
    ensures Masked(x, k) == Masked(y, k) <==> x == y
  {
    hide Masked;
    MaskTwice(x, k);
    MaskTwice(y, k);
  }

  /** Two parties get the same tag from the same store exactly when their finished hashes are equal. */
  lemma TagsCompare(asAlice: bool, c: Context, d: Context, st: Store)
    requires st.Valid() && KeysFor(c, st) != [] && KeysFor(d, st) != []
    ensures TagFor(asAlice, c, st) == TagFor(asAlice, d, st) <==> c == d
  {
    hide Masked, FirstRun;
    if |c.hash| == |d.hash| {
      MaskInjective(c.hash, d.hash, FinalKey(asAlice, c, st));
    }
  }

  /** Alice's incoming keys are Bob's outgoing ones, and the other way round. */
  ghost predicate Mirrored(a: Keeper, b: Keeper) {
    a.Valid() && b.Valid() && a.incoming == b.outgoing && a.outgoing == b.incoming
  }

  /** The contexts of both sides, and the ids of the keys they were handed with. */
  datatype Situation = Situation(idA: nat, idB: nat, inA: Context, outA: Context, inB: Context, outB: Context) {
    predicate SkipA() {
      inA.NullContext? && outA.NullContext?
    }

    predicate SkipB() {
      inB.NullContext? && outB.NullContext?
    }

    /** The hash of one side for incoming messages is that of the other for outgoing ones. */
    predicate Consistent() {
      idA == idB && inA == outB && outA == inB
    }
  }

  ghost function PendingA(a: Keeper, s: Situation): Option<Pending>
    requires a.Valid()
  {
    if s.SkipA() then None else Prepared(a, s.idA, s.inA, s.outA)
  }

  ghost function PendingB(b: Keeper, s: Situation): Option<Pending>
    requires b.Valid()
  {
    if s.SkipB() then None else Prepared(b, s.idB, s.inB, s.outB)
  }

  /** The verdict of a side: true without contexts, false when one of the two messages is not sent. */
  ghost function VerdictA(a: Keeper, b: Keeper, s: Situation): bool
    requires a.Valid() && b.Valid()
  {
    s.SkipA() || (PendingA(a, s).Some? && PendingB(b, s).Some?
                  && Verdict(true, PendingA(a, s).value, MessageOf(false, PendingB(b, s).value, b.threshold)))
  }

  ghost function VerdictB(a: Keeper, b: Keeper, s: Situation): bool
    requires a.Valid() && b.Valid()
  {
    s.SkipB() || (PendingA(a, s).Some? && PendingB(b, s).Some?
                  && Verdict(false, PendingB(b, s).value, MessageOf(true, PendingA(a, s).value, a.threshold)))
  }

  /**
   * With mirrored stores a side that has a context confirms exactly when both sides have both contexts, the
   * contexts and key ids are consistent, and the stores hold a long enough run of keys for each of them.
   */
  lemma VerdictMeans(a: Keeper, b: Keeper, s: Situation)
    requires Mirrored(a, b)
    ensures !s.SkipA() ==> (VerdictA(a, b, s) <==>
      s.Consistent() && KeysFor(s.inA, a.incoming) != [] && KeysFor(s.outA, a.outgoing) != [])
    ensures !s.SkipB() ==> (VerdictB(a, b, s) <==>
      s.Consistent() && KeysFor(s.inB, b.incoming) != [] && KeysFor(s.outB, b.outgoing) != [])
  {
    hide FirstRun, TagFor;
    if PendingA(a, s).Some? && PendingB(b, s).Some? {
      TagsCompare(false, s.inA, s.outB, a.incoming);
      TagsCompare(false, s.outA, s.inB, a.outgoing);
      TagsCompare(true, s.inA, s.outB, a.incoming);
      TagsCompare(true, s.outA, s.inB, a.outgoing);
    }
  }

  /** Both sides reach the same verdict exactly when both or neither of them have a context. */
  lemma SameVerdict(a: Keeper, b: Keeper, s: Situation)
    requires Mirrored(a, b)
    ensures VerdictA(a, b, s) == VerdictB(a, b, s) <==> s.SkipA() == s.SkipB()
    ensures s.SkipA() != s.SkipB() ==> VerdictA(a, b, s) == s.SkipA()
  {
    VerdictMeans(a, b, s);
  }

  /** With only one of two contexts a side never confirms: the tag of a null context is no tag. */
  lemma OneNullContextFails(a: Keeper, b: Keeper, s: Situation)
    requires a.Valid() && b.Valid()
    ensures s.inA.NullContext? != s.outA.NullContext? ==> !VerdictA(a, b, s)
    ensures s.inB.NullContext? != s.outB.NullContext? ==> !VerdictB(a, b, s)
  {}

  /** The stores after the authentication. */
  ghost function AuthenticatedA(a: Keeper, b: Keeper, s: Situation): (t: Keeper)
    requires a.Valid() && b.Valid()
    ensures t.Valid()
  {
    if PendingA(a, s).None? || PendingB(b, s).None? then a
    else Concluded(true, a, PendingA(a, s).value, MessageOf(false, PendingB(b, s).value, b.threshold))
  }

  ghost function AuthenticatedB(a: Keeper, b: Keeper, s: Situation): (t: Keeper)
    requires a.Valid() && b.Valid()
    ensures t.Valid()
  {
    if PendingA(a, s).None? || PendingB(b, s).None? then b
    else Concluded(false, b, PendingB(b, s).value, MessageOf(true, PendingA(a, s).value, a.threshold))
  }

  /** The same keys are deleted on both sides; after a confirmation Bob has Alice's threshold. */
  lemma DeletesMirrored(a: Keeper, b: Keeper, s: Situation)
    requires Mirrored(a, b)
    ensures Mirrored(AuthenticatedA(a, b, s), AuthenticatedB(a, b, s))
    ensures !s.SkipA() && VerdictA(a, b, s) ==>
      AuthenticatedA(a, b, s).threshold == AuthenticatedB(a, b, s).threshold == a.threshold
  {
    hide FirstRun, TagFor, Deleted;
    VerdictMeans(a, b, s);
    if PendingA(a, s).Some? && PendingB(b, s).Some? && !VerdictA(a, b, s) { assert !VerdictB(a, b, s); }
  }

  /** Filling up from equal keys with equal thresholds keeps the stores mirrored and leaves equal keys. */
  lemma RefillMirrored(a: Keeper, b: Keeper, key: seq<Byte>)
    requires Mirrored(a, b) && a.threshold == b.threshold
    ensures Mirrored(Refilled(true, a, key).0, Refilled(false, b, key).0)
    ensures Refilled(true, a, key).1 == Refilled(false, b, key).1
  {}

  /** What a side makes of a key: its stores, whether it forwards the key, and the rest of the key. */
  datatype Work = Work(keeper: Keeper, forward: bool, rest: seq<Byte>)

  ghost function WorkA(a: Keeper, b: Keeper, s: Situation, key: seq<Byte>, amplified: bool): (w: Work)
    requires a.Valid() && b.Valid()
    ensures w.keeper.Valid() && w.rest <= key
  {
    if s.SkipA() then Work(a, key != [], key)
    else if !VerdictA(a, b, s) then Work(AuthenticatedA(a, b, s), false, key)
    else
      var t := AuthenticatedA(a, b, s);
      var r := if amplified then Refilled(true, t, key) else (t, key);
      Work(r.0, r.1 != [], r.1)
  }

  ghost function WorkB(a: Keeper, b: Keeper, s: Situation, key: seq<Byte>, amplified: bool): (w: Work)
    requires a.Valid() && b.Valid()
    ensures w.keeper.Valid() && w.rest <= key
  {
    if s.SkipB() then Work(b, key != [], key)
    else if !VerdictB(a, b, s) then Work(AuthenticatedB(a, b, s), false, key)
    else
      var t := AuthenticatedB(a, b, s);
      var r := if amplified then Refilled(false, t, key) else (t, key);
      Work(r.0, r.1 != [], r.1)
  }

  /** The work of both modules on one key; each sends its tags when it has them, and waits for the other's. */
  method Process(alice: Authenticator, bob: Authenticator, s: Situation, key: seq<Byte>, amplified: bool)
    returns (forwardA: bool, restA: seq<Byte>, forwardB: bool, restB: seq<Byte>)
    requires alice.Valid() && bob.Valid() && alice.Repr() !! bob.Repr() && alice.isAlice && !bob.isAlice
    modifies alice.Repr(), bob.Repr()
    ensures alice.Valid() && bob.Valid()
    ensures Work(alice.View(), forwardA, restA) == WorkA(old(alice.View()), old(bob.View()), s, key, amplified)
    ensures Work(bob.View(), forwardB, restB) == WorkB(old(alice.View()), old(bob.View()), s, key, amplified)
    ensures restA <= key && restB <= key
    ensures Mirrored(old(alice.View()), old(bob.View())) ==>
      Guarded(old(alice.View()), old(bob.View()), s, key,
              Work(alice.View(), forwardA, restA), Work(bob.View(), forwardB, restB))
  {
    hide AuthenticatedA, AuthenticatedB, VerdictA, VerdictB, Refilled, Mirrored, Guarded;
    GuardedIf(alice.View(), bob.View(), s, key, amplified);
    NothingWithout(alice.View(), bob.View(), s);
    SkipConfirms(alice.View(), bob.View(), s);
    var authenticA, authenticB := Authenticate(alice, bob, s);
    restA, restB := key, key;
    if !s.SkipA() && authenticA { restA := alice.RefillLocalKeystores(key, amplified); }
    if !s.SkipB() && authenticB { restB := bob.RefillLocalKeystores(key, amplified); }
    forwardA := authenticA && restA != [];
    forwardB := authenticB && restB != [];
  }

  lemma SkipConfirms(a: Keeper, b: Keeper, s: Situation)
    requires a.Valid() && b.Valid()
    ensures s.SkipA() ==> VerdictA(a, b, s)
    ensures s.SkipB() ==> VerdictB(a, b, s)
  {}

  /** Tags for both contexts, one message each way, and the comparison; a side without contexts has nothing to do. */
  method Authenticate(alice: Authenticator, bob: Authenticator, s: Situation)
    returns (authenticA: bool, authenticB: bool)
    requires alice.Valid() && bob.Valid() && alice.Repr() !! bob.Repr() && alice.isAlice && !bob.isAlice
    modifies alice.Repr(), bob.Repr()
    ensures alice.Valid() && bob.Valid()
    ensures authenticA == VerdictA(old(alice.View()), old(bob.View()), s)
    ensures authenticB == VerdictB(old(alice.View()), old(bob.View()), s)
    ensures alice.View() == AuthenticatedA(old(alice.View()), old(bob.View()), s)
    ensures bob.View() == AuthenticatedB(old(alice.View()), old(bob.View()), s)
  {
    hide Prepared, Concluded, Verdict;
    var pendingA, pendingB := None, None;
    if !s.SkipA() { pendingA := alice.Prepare(s.idA, s.inA, s.outA); }
    if !s.SkipB() { pendingB := bob.Prepare(s.idB, s.inB, s.outB); }
    authenticA, authenticB := s.SkipA(), s.SkipB();
    if pendingA.Some? && pendingB.Some? {
      var messageA := MessageOf(true, pendingA.value, alice.threshold);
      var messageB := MessageOf(false, pendingB.value, bob.threshold);
      authenticA := alice.Conclude(pendingA.value, messageB);
      authenticB := bob.Conclude(pendingB.value, messageA);
    }
  }

  /**
   * Over mirrored stores a side with a context lets a key pass only when contexts and ids agree crosswise and the
   * stores hold the keys for the tags; without this it changes nothing.
   */
  ghost predicate Guarded(a: Keeper, b: Keeper, s: Situation, key: seq<Byte>, wA: Work, wB: Work) {
    var authentic := s.Consistent() && HoldsRun(s.inA, a.incoming) && HoldsRun(s.outA, a.outgoing);
    && (wA.forward <==> (s.SkipA() || authentic) && wA.rest != [])
    && (wB.forward <==> (s.SkipB() || authentic) && wB.rest != [])
    && (s.SkipA() || !authentic ==> wA.keeper == a && wA.rest == key)
    && (s.SkipB() || !authentic ==> wB.keeper == b && wB.rest == key)
  }

  lemma ForwardMeans(a: Keeper, b: Keeper, s: Situation, key: seq<Byte>, amplified: bool)
    requires Mirrored(a, b)
    ensures Guarded(a, b, s, key, WorkA(a, b, s, key, amplified), WorkB(a, b, s, key, amplified))
  {
    hide Refilled, VerdictA, VerdictB, KeysFor, HoldsRun, PendingA, PendingB;
    VerdictMeans(a, b, s);
    KeysForRun(s.inA, a.incoming);
    KeysForRun(s.outA, a.outgoing);
    KeysForRun(s.inB, b.incoming);
    KeysForRun(s.outB, b.outgoing);
    UnchangedWithout(a, b, s);
  }

  lemma UnchangedWithout(a: Keeper, b: Keeper, s: Situation)
    requires a.Valid() && b.Valid()
    ensures !s.SkipA() && !VerdictA(a, b, s) ==> AuthenticatedA(a, b, s) == a
    ensures !s.SkipB() && !VerdictB(a, b, s) ==> AuthenticatedB(a, b, s) == b
  {
    hide Prepared, Verdict;
  }

  lemma GuardedIf(a: Keeper, b: Keeper, s: Situation, key: seq<Byte>, amplified: bool)
    requires a.Valid() && b.Valid()
    ensures Mirrored(a, b) ==>
      Guarded(a, b, s, key, WorkA(a, b, s, key, amplified), WorkB(a, b, s, key, amplified))
  {
    if Mirrored(a, b) { ForwardMeans(a, b, s, key, amplified); }
  }

  /** Over every run: no side with a context forwards a key unless the contexts agree crosswise. */
  lemma RunForwards(p: Pair, events: seq<Event>, i: nat)
    requires Mirrored(p.a, p.b) && i < |events| && events[i].KeyEvent?
    ensures
      var q, e := Run(p, events[..i]), events[i];
      && (WorkA(q.a, q.b, e.s, e.key, e.amplified).forward ==> e.s.SkipA() || e.s.Consistent())
      && (WorkB(q.a, q.b, e.s, e.key, e.amplified).forward ==> e.s.SkipB() || e.s.Consistent())
      && (!e.s.SkipA() && !e.s.Consistent() ==> Step(q, e).a == q.a)
      && (!e.s.SkipB() && !e.s.Consistent() ==> Step(q, e).b == q.b)
  {
    hide Mirrored, Run, WorkA, WorkB, HoldsRun;
    MirroredValid(p.a, p.b);
    RunMirrored(p, events[..i]);
    var q := Run(p, events[..i]);
    ForwardMeans(q.a, q.b, events[i].s, events[i].key, events[i].amplified);
  }

  /** A confirmation leaves none of the used keys in the stores, and all others. */
  lemma UsedKeysGone(a: Keeper, b: Keeper, s: Situation)
    requires a.Valid() && b.Valid() && !s.SkipA() && VerdictA(a, b, s)
    ensures
      var t, p := AuthenticatedA(a, b, s), PendingA(a, s).value;
      && (forall id :: id in t.incoming.slots <==> id in a.incoming.slots && id !in p.inKeys)
      && (forall id :: id in t.outgoing.slots <==> id in a.outgoing.slots && id !in p.outKeys)
  {
    hide Prepared, Deleted, Verdict;
    DeletedExactly(a.incoming, PendingA(a, s).value.inKeys);
    DeletedExactly(a.outgoing, PendingA(a, s).value.outKeys);
  }

  /** These keys have been in the store, are gone, and will not come back. */
  ghost predicate Retired(st: Store, used: seq<nat>) {
    Grown(st) && forall id :: id in used ==> id <= st.last && id !in st.slots
  }

  ghost predicate BothRetired(a: Keeper, usedIn: seq<nat>, usedOut: seq<nat>) {
    Retired(a.incoming, usedIn) && Retired(a.outgoing, usedOut)
  }

  lemma DeletedRetired(st: Store, ids: seq<nat>, used: seq<nat>)
    requires Retired(st, used)
    ensures Retired(Deleted(st, ids), used)
    ensures (forall id :: id in ids ==> id in st.slots) ==> Retired(Deleted(st, ids), ids)
  {
    hide Deleted;
    DeletedExactly(st, ids);
  }

  lemma NibbledRetired(st: Store, key: seq<Byte>, threshold: nat, used: seq<nat>)
    requires Retired(st, used)
    ensures Retired(Nibbled(st, key, threshold).0, used)
  {
    hide Stored;
    if st.Available() < threshold {
      StoredIs(st, key[|key| - if |key| < threshold then |key| else threshold..]);
    }
  }

  lemma RefilledRetired(isAlice: bool, a: Keeper, key: seq<Byte>, usedIn: seq<nat>, usedOut: seq<nat>)
    requires a.Valid() && BothRetired(a, usedIn, usedOut)
    ensures BothRetired(Refilled(isAlice, a, key).0, usedIn, usedOut)
  {
    hide Retired, Nibbled;
    NibbledRetired(a.incoming, key, a.threshold, usedIn);
    NibbledRetired(a.outgoing, key, a.threshold, usedOut);
    NibbledRetired(a.outgoing, Nibbled(a.incoming, key, a.threshold).1, a.threshold, usedOut);
    NibbledRetired(a.incoming, Nibbled(a.outgoing, key, a.threshold).1, a.threshold, usedIn);
  }

  lemma AuthenticatedRetired(a: Keeper, b: Keeper, s: Situation, usedIn: seq<nat>, usedOut: seq<nat>)
    requires a.Valid() && b.Valid() && BothRetired(a, usedIn, usedOut)
    ensures BothRetired(AuthenticatedA(a, b, s), usedIn, usedOut)
    ensures !s.SkipA() && VerdictA(a, b, s) ==>
      BothRetired(AuthenticatedA(a, b, s), PendingA(a, s).value.inKeys, PendingA(a, s).value.outKeys)
  {
    hide Deleted, Verdict, Retired, TagFor, KeysFor;
    if PendingA(a, s).Some? {
      DeletedRetired(a.incoming, PendingA(a, s).value.inKeys, usedIn);
      DeletedRetired(a.outgoing, PendingA(a, s).value.outKeys, usedOut);
    }
  }

  lemma StepRetired(p: Pair, e: Event, usedIn: seq<nat>, usedOut: seq<nat>)
    requires p.a.Valid() && p.b.Valid() && BothRetired(p.a, usedIn, usedOut)
    ensures BothRetired(Step(p, e).a, usedIn, usedOut)
    ensures e.KeyEvent? && !e.s.SkipA() && VerdictA(p.a, p.b, e.s) ==>
      BothRetired(Step(p, e).a, PendingA(p.a, e.s).value.inKeys, PendingA(p.a, e.s).value.outKeys)
  {
    hide Retired, VerdictA, PendingA, AuthenticatedA, Refilled, WorkB;
    if e.KeyEvent? {
      var t := AuthenticatedA(p.a, p.b, e.s);
      AuthenticatedRetired(p.a, p.b, e.s, usedIn, usedOut);
      RefilledRetired(true, t, e.key, usedIn, usedOut);
      if !e.s.SkipA() && VerdictA(p.a, p.b, e.s) {
        PendingWhenConfirmed(p.a, p.b, e.s);
        RefilledRetired(true, t, e.key, PendingA(p.a, e.s).value.inKeys, PendingA(p.a, e.s).value.outKeys);
      }
    }
  }

  lemma {:induction false} RunRetired(p: Pair, events: seq<Event>, usedIn: seq<nat>, usedOut: seq<nat>)
    requires p.a.Valid() && p.b.Valid() && BothRetired(p.a, usedIn, usedOut)
    ensures BothRetired(Run(p, events).a, usedIn, usedOut)
    decreases |events|
  {
    hide BothRetired, Step;
    if events != [] {
      StepRetired(p, events[0], usedIn, usedOut);
      RunRetired(Step(p, events[0]), events[1..], usedIn, usedOut);
    }
  }

  lemma {:induction false} RunSplit(p: Pair, x: seq<Event>, y: seq<Event>)
    requires p.a.Valid() && p.b.Valid()
    ensures Run(p, x + y) == Run(Run(p, x), y)
    decreases |x|
  {
    hide Step;
    if x == [] {
      assert x + y == y;
    } else {
      assert (x + y)[1..] == x[1..] + y;
      RunSplit(Step(p, x[0]), x[1..], y);
    }
  }

  /** Both parties when they begin, with whatever thresholds. */
  ghost function Beginning(thresholdA: nat, thresholdB: nat): (p: Pair)
    ensures Mirrored(p.a, p.b)
  {
    var empty := Store(map[], 0);
    Pair(Keeper(empty, empty, thresholdA), Keeper(empty, empty, thresholdB))
  }

  /**
   * Over every run no stored key is used for two confirmed keys: the tags of a later key are masked with other
   * stored keys than those of a key that was confirmed before.
   */
  lemma NoKeyTwice(thresholdA: nat, thresholdB: nat, events: seq<Event>, i: nat, j: nat)
    requires i < j < |events| && events[i].KeyEvent? && events[j].KeyEvent?
    requires var p := Run(Beginning(thresholdA, thresholdB), events[..i]);
      !events[i].s.SkipA() && VerdictA(p.a, p.b, events[i].s)
    ensures
      var start := Beginning(thresholdA, thresholdB);
      var p, q := Run(start, events[..i]), Run(start, events[..j]);
      var x, y := PendingA(p.a, events[i].s), PendingA(q.a, events[j].s);
      x.Some? && (y.Some? ==>
        && (forall id :: id in x.value.inKeys ==> id !in y.value.inKeys)
        && (forall id :: id in x.value.outKeys ==> id !in y.value.outKeys))
  {
    hide Run, VerdictA, PendingA, Step;
    var start := Beginning(thresholdA, thresholdB);
    var p, q := Run(start, events[..i]), Run(start, events[..j]);
    var s, t := events[i].s, events[j].s;
    RunRetired(start, events[..i], [], []);
    StepRetired(p, events[i], [], []);
    PendingWhenConfirmed(p.a, p.b, s);
    RunTo(start, events, i, j);
    RunRetired(Step(p, events[i]), events[i + 1..j], PendingA(p.a, s).value.inKeys, PendingA(p.a, s).value.outKeys);
    if PendingA(q.a, t).Some? { PendingInside(q.a, t); }
  }

  lemma PendingWhenConfirmed(a: Keeper, b: Keeper, s: Situation)
    requires a.Valid() && b.Valid() && !s.SkipA() && VerdictA(a, b, s)
    ensures PendingA(a, s).Some?
  {}

  lemma PendingInside(a: Keeper, s: Situation)
    requires a.Valid() && PendingA(a, s).Some?
    ensures forall id :: id in PendingA(a, s).value.inKeys ==> id in a.incoming.slots
    ensures forall id :: id in PendingA(a, s).value.outKeys ==> id in a.outgoing.slots
  {
    hide KeysFor, TagFor;
  }

  lemma RunTo(p: Pair, events: seq<Event>, i: nat, j: nat)
    requires p.a.Valid() && p.b.Valid() && i < j <= |events|
    ensures Run(p, events[..j]) == Run(Step(Run(p, events[..i]), events[i]), events[i + 1..j])
  {
    hide Step, Run;
    EventsTo(events, i, j);
    RunSplit(p, events[..i], [events[i]] + events[i + 1..j]);
    RunFirst(Run(p, events[..i]), events[i], events[i + 1..j]);
  }

  lemma EventsTo(events: seq<Event>, i: nat, j: nat)
    requires i < j <= |events|
    ensures events[..j] == events[..i] + ([events[i]] + events[i + 1..j])
  {}

  lemma RunFirst(p: Pair, e: Event, rest: seq<Event>)
    requires p.a.Valid() && p.b.Valid()
    ensures Run(p, [e] + rest) == Run(Step(p, e), rest)
  {
    hide Step;
    assert ([e] + rest)[1..] == rest;
  }

  /** An event of a run: a key for both modules, or a new threshold on one side. */
  datatype Event =
    | KeyEvent(s: Situation, key: seq<Byte>, amplified: bool)
    | ThresholdEvent(ofAlice: bool, threshold: nat)

  datatype Pair = Pair(a: Keeper, b: Keeper)

  ghost function Step(p: Pair, e: Event): (q: Pair)
    requires p.a.Valid() && p.b.Valid()
    ensures q.a.Valid() && q.b.Valid()
  {
    match e
    case KeyEvent(s, key, amplified) =>
      Pair(WorkA(p.a, p.b, s, key, amplified).keeper, WorkB(p.a, p.b, s, key, amplified).keeper)
    case ThresholdEvent(ofAlice, threshold) =>
      if ofAlice then Pair(p.a.(threshold := threshold), p.b) else Pair(p.a, p.b.(threshold := threshold))
  }

  ghost function Run(p: Pair, events: seq<Event>): (q: Pair)
    requires p.a.Valid() && p.b.Valid()
    ensures q.a.Valid() && q.b.Valid()
    decreases |events|
  {
    if events == [] then p else Run(Step(p, events[0]), events[1..])
  }

  lemma StepMirrored(p: Pair, e: Event)
    requires Mirrored(p.a, p.b)
    ensures Mirrored(Step(p, e).a, Step(p, e).b)
  {
    hide Refilled, VerdictA, VerdictB, AuthenticatedA, AuthenticatedB;
    match e
    case KeyEvent(s, key, amplified) => WorkMirrored(p.a, p.b, s, key, amplified);
    case ThresholdEvent(_, _) =>
  }

  /** Whatever is hashed, the stores stay mirrored, and both sides confirm and forward the same bytes. */
  lemma WorkMirrored(a: Keeper, b: Keeper, s: Situation, key: seq<Byte>, amplified: bool)
    requires Mirrored(a, b)
    ensures var wA, wB := WorkA(a, b, s, key, amplified), WorkB(a, b, s, key, amplified);
      && Mirrored(wA.keeper, wB.keeper)
      && (s.SkipA() == s.SkipB() ==> wA.forward == wB.forward && wA.rest == wB.rest)
  {
    hide Refilled, VerdictA, VerdictB, AuthenticatedA, AuthenticatedB;
    SameVerdict(a, b, s);
    DeletesMirrored(a, b, s);
    NothingWithout(a, b, s);
    RefillMirroredIf(AuthenticatedA(a, b, s), AuthenticatedB(a, b, s), key);
  }

  lemma RefillMirroredIf(a: Keeper, b: Keeper, key: seq<Byte>)
    requires Mirrored(a, b)
    ensures a.threshold == b.threshold ==>
      Mirrored(Refilled(true, a, key).0, Refilled(false, b, key).0)
      && Refilled(true, a, key).1 == Refilled(false, b, key).1
  {
    if a.threshold == b.threshold { RefillMirrored(a, b, key); }
  }

  /** A side without contexts leaves everything as it is, on both sides. */
  lemma NothingWithout(a: Keeper, b: Keeper, s: Situation)
    requires a.Valid() && b.Valid()
    ensures s.SkipA() || s.SkipB() ==> AuthenticatedA(a, b, s) == a && AuthenticatedB(a, b, s) == b
  {}

  /** Over every run of keys and threshold changes the stores stay mirrored. */
  lemma {:induction false} RunMirrored(p: Pair, events: seq<Event>)
    requires Mirrored(p.a, p.b)
    ensures Mirrored(Run(p, events).a, Run(p, events).b)
    decreases |events|
  {
    hide Mirrored, Step;
    if events != [] {
      assert p.a.Valid() && p.b.Valid() by { MirroredValid(p.a, p.b); }
      StepMirrored(p, events[0]);
      RunMirrored(Step(p, events[0]), events[1..]);
    }
  }

  lemma MirroredValid(a: Keeper, b: Keeper)
    requires Mirrored(a, b)
    ensures a.Valid() && b.Valid()
  {}

  /**
   * What both sides have in common on one key: the verdict and what is forwarded, unless just one of them has no
   * context at all; after a confirmation the deleted keys and the threshold.
   */
  ghost predicate Agree(a: Keeper, b: Keeper, s: Situation, key: seq<Byte>, amplified: bool) {
    && Mirrored(a, b)
    && (s.SkipA() == s.SkipB() ==>
          && VerdictA(a, b, s) == VerdictB(a, b, s)
          && WorkA(a, b, s, key, amplified).forward == WorkB(a, b, s, key, amplified).forward
          && WorkA(a, b, s, key, amplified).rest == WorkB(a, b, s, key, amplified).rest)
    && (!s.SkipA() && VerdictA(a, b, s) ==>
          && !s.SkipB() && VerdictB(a, b, s) && PendingA(a, s).Some? && PendingB(b, s).Some?
          && PendingA(a, s).value.inKeys == PendingB(b, s).value.outKeys
          && PendingA(a, s).value.outKeys == PendingB(b, s).value.inKeys
          && AuthenticatedA(a, b, s).threshold == AuthenticatedB(a, b, s).threshold)
  }

  /** A confirmation deletes the same keys on both sides. */
  lemma SameKeysDeleted(a: Keeper, b: Keeper, s: Situation)
    requires Mirrored(a, b) && !s.SkipA() && VerdictA(a, b, s)
    ensures !s.SkipB() && VerdictB(a, b, s) && PendingA(a, s).Some? && PendingB(b, s).Some?
    ensures PendingA(a, s).value.inKeys == PendingB(b, s).value.outKeys
    ensures PendingA(a, s).value.outKeys == PendingB(b, s).value.inKeys
  {
    VerdictMeans(a, b, s);
    hide FirstRun, TagFor;
  }

  /** At every key of every run both sides agree. */
  lemma RunAgrees(p: Pair, events: seq<Event>, i: nat)
    requires Mirrored(p.a, p.b) && i < |events| && events[i].KeyEvent?
    ensures var q := Run(p, events[..i]); Agree(q.a, q.b, events[i].s, events[i].key, events[i].amplified)
  {
    hide Mirrored, Run;
    MirroredValid(p.a, p.b);
    RunMirrored(p, events[..i]);
    var q := Run(p, events[..i]);
    AgreesOn(q.a, q.b, events[i].s, events[i].key, events[i].amplified);
  }

  lemma AgreesOn(a: Keeper, b: Keeper, s: Situation, key: seq<Byte>, amplified: bool)
    requires Mirrored(a, b)
    ensures Agree(a, b, s, key, amplified)
  {
    hide WorkA, WorkB, VerdictA, VerdictB, AuthenticatedA, AuthenticatedB, PendingA, PendingB;
    SameVerdict(a, b, s);
    WorkMirrored(a, b, s, key, amplified);
    DeletesMirrored(a, b, s);
    if !s.SkipA() && VerdictA(a, b, s) { SameKeysDeleted(a, b, s); }
  }

  /** The two modules over a run of events; what they forward, key by key. */
  method RunBoth(alice: Authenticator, bob: Authenticator, events: seq<Event>)
    returns (forwardedA: seq<seq<Byte>>, forwardedB: seq<seq<Byte>>)
    requires alice.Valid() && bob.Valid() && alice.Repr() !! bob.Repr() && alice.isAlice && !bob.isAlice
    modifies alice.Repr(), bob.Repr()
    ensures alice.Valid() && bob.Valid()
    ensures Pair(alice.View(), bob.View()) == Run(Pair(old(alice.View()), old(bob.View())), events)
    ensures Mirrored(old(alice.View()), old(bob.View())) && SkipTogether(events) ==> forwardedA == forwardedB
  {
    hide Run, WorkA, WorkB, Mirrored, Guarded;
    ghost var start := Pair(alice.View(), bob.View());
    forwardedA, forwardedB := [], [];
    NoEvents(start, events);
    for i := 0 to |events|
      invariant alice.Valid() && bob.Valid()
      invariant Pair(alice.View(), bob.View()) == Run(start, events[..i])
      invariant Mirrored(start.a, start.b) && SkipTogether(events) ==> forwardedA == forwardedB
    {
      SameForward(start, events, i);
      RunOneMore(start, events, i);
      match events[i]
      case KeyEvent(s, key, amplified) =>
        var forwardA, restA, forwardB, restB := Process(alice, bob, s, key, amplified);
        if forwardA { forwardedA := forwardedA + [restA]; }
        if forwardB { forwardedB := forwardedB + [restB]; }
      case ThresholdEvent(ofAlice, threshold) =>
        if ofAlice { alice.SetThreshold(threshold); } else { bob.SetThreshold(threshold); }
    }
    assert events[..|events|] == events;
  }

  /** At every key both sides or none of them have a context. */
  ghost predicate SkipTogether(events: seq<Event>) {
    forall i :: 0 <= i < |events| && events[i].KeyEvent? ==> events[i].s.SkipA() == events[i].s.SkipB()
  }

  lemma SameForward(p: Pair, events: seq<Event>, i: nat)
    requires p.a.Valid() && p.b.Valid() && i < |events|
    ensures Mirrored(p.a, p.b) && SkipTogether(events) && events[i].KeyEvent? ==>
      var q, e := Run(p, events[..i]), events[i];
      var wA, wB := WorkA(q.a, q.b, e.s, e.key, e.amplified), WorkB(q.a, q.b, e.s, e.key, e.amplified);
      wA.forward == wB.forward && wA.rest == wB.rest
  {
    hide Run, WorkA, WorkB, Mirrored;
    if Mirrored(p.a, p.b) && SkipTogether(events) && events[i].KeyEvent? {
      RunMirrored(p, events[..i]);
      var q := Run(p, events[..i]);
      WorkMirrored(q.a, q.b, events[i].s, events[i].key, events[i].amplified);
    }
  }

  lemma NoEvents(p: Pair, events: seq<Event>)
    requires p.a.Valid() && p.b.Valid()
    ensures Run(p, events[..0]) == p
  {}

  lemma RunOneMore(p: Pair, events: seq<Event>, i: nat)
    requires p.a.Valid() && p.b.Valid() && i < |events|
    ensures Run(p, events[..i + 1]) == Step(Run(p, events[..i]), events[i])
  {
    hide Step;
    RunSplit(p, events[..i], [events[i]]);
    assert events[..i + 1] == events[..i] + [events[i]];
    assert [events[i]][1..] == [];
  }
}
