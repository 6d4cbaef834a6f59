/** The key store in memory: slots of one quantum each, insertion behind the last one, searches for runs. */
module KeyStores {
  import opened Words
  import opened KeyRings

  const QUANTUM: nat := 4
  const AMOUNT: nat := 0x1_0000

  /** What is stored where, and the slot of the last insertion; AMOUNT stands for any slot behind the end. */
  datatype Store = Store(slots: map<nat, seq<Byte>>, last: nat) {
    ghost predicate Valid() {
      last <= AMOUNT && forall id :: id in slots ==> id < AMOUNT && |slots[id]| == QUANTUM
    }

    /** The key material in the store, in bytes. */
    function Available(): nat {
      |slots| * QUANTUM
    }

    predicate Free(id: nat) {
      id < AMOUNT && id !in slots
    }
  }

  function Following(id: nat): (next: nat)
    requires id < AMOUNT
    ensures next < AMOUNT
  {
    if id + 1 == AMOUNT then 0 else id + 1
  }

  /** The steps from id up to last, around the end of the store. */
  function Steps(id: nat, last: nat): nat
    requires id < AMOUNT && last < AMOUNT
  {
    if id <= last then last - id else last + AMOUNT - id
  }

  /** The first free slot from id on; last when there is none in front of it. */
  function NextFree(slots: map<nat, seq<Byte>>, last: nat, id: nat): (free: nat)
    requires id < AMOUNT && last < AMOUNT
    ensures free < AMOUNT && (free == last || free !in slots)
    decreases Steps(id, last)
  {
    if id == last || id !in slots then id else NextFree(slots, last, Following(id))
  }

  /**
   * The store after the insertion of a key. The search starts one slot behind the last insertion without regard to
   * the end: from there no slot of the store is found any more, and the key is lost.
   */
  function Inserted(st: Store, data: seq<Byte>): (t: Store)
    requires st.Valid()
    ensures t.Valid()
  {
    if |data| != QUANTUM then st
    else if st.last + 1 >= AMOUNT then Store(st.slots, AMOUNT)
    else
      var id := NextFree(st.slots, st.last, st.last + 1);
      if id == st.last then st else Store(st.slots[id := data], id)
  }

  lemma {:induction false} AllTaken(st: Store, id: nat, j: nat)
    requires id < AMOUNT && st.last < AMOUNT && j < AMOUNT && Steps(j, st.last) <= Steps(id, st.last)
    requires j != st.last && NextFree(st.slots, st.last, id) == st.last
    ensures !st.Free(j)
    decreases Steps(id, st.last)
  {
    if j != id { AllTaken(st, Following(id), j); }
  }

  /** A key is stored exactly when it has the right size, a slot is free, and the last insertion was not at the end. */
  lemma InsertionStores(st: Store, data: seq<Byte>)
    requires st.Valid()
    ensures Inserted(st, data).slots != st.slots <==>
      |data| == QUANTUM && st.last + 1 < AMOUNT && exists j: nat :: j != st.last && st.Free(j)
    ensures Inserted(st, data).slots == st.slots || |Inserted(st, data).slots| == |st.slots| + 1
  {
    hide NextFree;
    if |data| == QUANTUM && st.last + 1 < AMOUNT {
      var id := NextFree(st.slots, st.last, st.last + 1);
      if id == st.last {
        forall j: nat | j != st.last
          ensures !st.Free(j)
        {
          if j < AMOUNT { AllTaken(st, st.last + 1, j); }
        }
      } else {
        OneMore(st, id, data);
      }
    }
  }

  lemma OneMore(st: Store, id: nat, data: seq<Byte>)
    requires id < AMOUNT && id !in st.slots
    ensures st.Free(id) && st.slots[id := data] != st.slots && |st.slots[id := data]| == |st.slots| + 1
  {
    assert st.slots[id := data].Keys == st.slots.Keys + {id};
  }

  function Deleted(st: Store, ids: seq<nat>): (t: Store)
    requires st.Valid()
    ensures t.Valid()
  {
    Store(map id | id in st.slots && id !in ids :: st.slots[id], st.last)
  }

  /** Exactly the named keys go. */
  lemma DeletedExactly(st: Store, ids: seq<nat>)
    requires st.Valid()
    ensures var t := Deleted(st, ids);
      && t.last == st.last
      && (forall id :: id in t.slots <==> id in st.slots && id !in ids)
      && (forall id :: id in t.slots ==> t.slots[id] == st.slots[id])
  {}

  ghost predicate RunAt(slots: map<nat, seq<Byte>>, i: nat, need: nat) {
    i + need <= AMOUNT && forall j :: i <= j < i + need ==> j in slots
  }

  /** The start of the first run of that many keys from i on; the size of the store when there is none. */
  ghost function FirstStart(slots: map<nat, seq<Byte>>, need: nat, i: nat): (s: nat)
    ensures s == AMOUNT || (i <= s < AMOUNT && RunAt(slots, s, need))
    decreases AMOUNT - i
  {
    if i >= AMOUNT then AMOUNT else if RunAt(slots, i, need) then i else FirstStart(slots, need, i + 1)
  }

  function Needed(bytes: nat): nat {
    (bytes + QUANTUM - 1) / QUANTUM
  }

  /** The ids of the first run of keys that covers the bytes; none when there is no such run. */
  ghost function FirstRun(slots: map<nat, seq<Byte>>, bytes: nat): (ids: seq<nat>)
    ensures ids != [] ==> bytes > 0 && |ids| == Needed(bytes)
    ensures forall id :: id in ids ==> id in slots
  {
    var s := FirstStart(slots, Needed(bytes), 0);
    if s == AMOUNT || bytes == 0 then []
    else
      assert RunAt(slots, s, Needed(bytes));
      seq(Needed(bytes), j requires 0 <= j => s + j)
  }

  /** The run found is the first one, and one is found when there is any. */
  lemma {:induction false} FirstStartIsFirst(slots: map<nat, seq<Byte>>, need: nat, i: nat, s: nat)
    requires need > 0 && i <= s && RunAt(slots, s, need) && forall j :: i <= j < s ==> !RunAt(slots, j, need)
    ensures FirstStart(slots, need, i) == s
    decreases s - i
  {
    if i < s { FirstStartIsFirst(slots, need, i + 1, s); }
  }

  lemma {:induction false} FirstStartFinds(slots: map<nat, seq<Byte>>, need: nat, i: nat, s: nat)
    requires need > 0 && i <= s && RunAt(slots, s, need)
    ensures FirstStart(slots, need, i) <= s
    decreases s - i
  {
    if i < s { FirstStartFinds(slots, need, i + 1, s); }
  }

  /** A run is found exactly when the store holds one. */
  lemma RunFound(slots: map<nat, seq<Byte>>, bytes: nat)
    ensures FirstRun(slots, bytes) != [] <==> bytes > 0 && exists s: nat :: RunAt(slots, s, Needed(bytes))
  {
    var need := Needed(bytes);
    if s: nat :| bytes > 0 && RunAt(slots, s, need) { FirstStartFinds(slots, need, 0, s); }
  }

  lemma {:induction false} NoStart(slots: map<nat, seq<Byte>>, need: nat, i: nat)
    requires forall j :: i <= j < AMOUNT ==> !RunAt(slots, j, need)
    ensures FirstStart(slots, need, i) == AMOUNT
    decreases AMOUNT - i
  {
    if i < AMOUNT { NoStart(slots, need, i + 1); }
  }

  /** The bytes of the keys with these ids. */
  function Material(slots: map<nat, seq<Byte>>, ids: seq<nat>): (m: seq<Byte>)
    requires forall id :: id in ids ==> id in slots
  {
    if ids == [] then []
    else
      assert ids[|ids| - 1] in ids;
      Material(slots, ids[..|ids| - 1]) + slots[ids[|ids| - 1]]
  }

  lemma {:induction false} MaterialSize(slots: map<nat, seq<Byte>>, ids: seq<nat>)
    requires forall id :: id in ids ==> id in slots && |slots[id]| == QUANTUM
    ensures |Material(slots, ids)| == |ids| * QUANTUM
  {
    if ids != [] {
      assert ids[|ids| - 1] in ids;
      MaterialSize(slots, ids[..|ids| - 1]);
    }
  }

  /** The store after these bytes went in, quantum by quantum; what is left over is dropped. */
  function Stored(st: Store, bytes: seq<Byte>): (t: Store)
    requires st.Valid()
    ensures t.Valid()
    decreases |bytes|
  {
    if |bytes| < QUANTUM then st else Stored(Inserted(st, bytes[..QUANTUM]), bytes[QUANTUM..])
  }

  /** What can happen to a store. */
  datatype Event = InsertEvent(data: seq<Byte>) | DeleteEvent(ids: seq<nat>)

  function Run(st: Store, events: seq<Event>): (t: Store)
    requires st.Valid()
    ensures t.Valid()
  {
    if events == [] then st
    else
      var before := Run(st, events[..|events| - 1]);
      match events[|events| - 1]
      case InsertEvent(data) => Inserted(before, data)
      case DeleteEvent(ids) => Deleted(before, ids)
  }

  /** The number of insertions of keys that have the right size. */
  function Quanta(events: seq<Event>): nat {
    if events == [] then 0
    else
      var e := events[|events| - 1];
      Quanta(events[..|events| - 1]) + if e.InsertEvent? && |e.data| == QUANTUM then 1 else 0
  }

  /**
   * The life of a store: key number n goes to slot n. From key number 65536 on all are lost, however many keys were
   * deleted in between, and slot 0 is never used.
   */
  lemma {:induction false} Lifetime(events: seq<Event>)
    ensures var st, n := Run(Store(map[], 0), events), Quanta(events);
      && st.last == (if n < AMOUNT then n else AMOUNT)
      && (forall id :: id in st.slots ==> 0 < id <= n)
      && (forall data :: |data| == QUANTUM ==>
            Inserted(st, data).slots == if n + 1 < AMOUNT then st.slots[n + 1 := data] else st.slots)
  {
    if events != [] { Lifetime(events[..|events| - 1]); }
  }

  /** Bytes for a store whose last insertion was at the end are lost. */
  lemma {:induction false} NothingMoreStored(st: Store, bytes: seq<Byte>)
    requires st.Valid() && st.last + 1 >= AMOUNT
    ensures Stored(st, bytes).slots == st.slots
    decreases |bytes|
  {
    if |bytes| >= QUANTUM { NothingMoreStored(Inserted(st, bytes[..QUANTUM]), bytes[QUANTUM..]); }
  }

  /** No key lies behind the last insertion: so it is in every store that began empty. */
  ghost predicate Grown(st: Store) {
    st.Valid() && forall id :: id in st.slots ==> id <= st.last
  }

  lemma InsertedGrown(st: Store, data: seq<Byte>)
    requires Grown(st) && |data| == QUANTUM
    ensures var t := Inserted(st, data);
      && Grown(t)
      && t.slots == (if st.last + 1 < AMOUNT then st.slots[st.last + 1 := data] else st.slots)
      && t.last == (if st.last + 1 < AMOUNT then st.last + 1 else AMOUNT)
      && |t.slots| == |st.slots| + if st.last + 1 < AMOUNT then 1 else 0
  {
    if st.last + 1 < AMOUNT { OneMore(st, st.last + 1, data); }
  }

  /** Whole quanta stand in the slots behind the last insertion, in order, as far as there are such slots. */
  ghost predicate KeptWhole(st: Store, bytes: seq<Byte>, t: Store) {
    var q := |bytes| / QUANTUM;
    && (forall id :: id in t.slots <==> id in st.slots || (st.last < id <= st.last + q && id < AMOUNT))
    && (forall id :: id in st.slots ==> id in t.slots && t.slots[id] == st.slots[id])
    && (forall id :: id in t.slots && st.last < id <= st.last + q ==>
          t.slots[id] == Quantum(bytes, id - st.last - 1))
  }

  function Quantum(bytes: seq<Byte>, j: nat): seq<Byte> {
    if (j + 1) * QUANTUM <= |bytes| then bytes[j * QUANTUM..(j + 1) * QUANTUM] else []
  }

  lemma {:induction false} StoredIs(st: Store, bytes: seq<Byte>)
    requires Grown(st)
    ensures var t, q := Stored(st, bytes), |bytes| / QUANTUM;
      && Grown(t) && KeptWhole(st, bytes, t)
      && st.last <= t.last
      && (st.last + q < AMOUNT ==> |t.slots| == |st.slots| + q && t.last == st.last + q)
    decreases |bytes|
  {
    hide Inserted, KeptWhole;
    if |bytes| < QUANTUM {
      NothingFilled(st, bytes);
    } else {
      var u := Inserted(st, bytes[..QUANTUM]);
      InsertedGrown(st, bytes[..QUANTUM]);
      StoredIs(u, bytes[QUANTUM..]);
      FilledMore(st, bytes, u, Stored(st, bytes));
    }
  }

  lemma NothingFilled(st: Store, bytes: seq<Byte>)
    requires |bytes| < QUANTUM
    ensures KeptWhole(st, bytes, st)
  {}

  lemma FilledMore(st: Store, bytes: seq<Byte>, u: Store, t: Store)
    requires Grown(st) && t.Valid() && |bytes| >= QUANTUM && KeptWhole(u, bytes[QUANTUM..], t)
    requires u.slots == if st.last + 1 < AMOUNT then st.slots[st.last + 1 := bytes[..QUANTUM]] else st.slots
    requires u.last == if st.last + 1 < AMOUNT then st.last + 1 else AMOUNT
    ensures KeptWhole(st, bytes, t)
  {
    hide Quantum;
    var q, next := |bytes| / QUANTUM, st.last + 1;
    FirstQuantum(bytes);
    forall id | id in t.slots && st.last < id <= st.last + q
      ensures t.slots[id] == Quantum(bytes, id - st.last - 1)
    {
      if id != next { QuantumBehind(bytes, id - u.last - 1); }
    }
  }

  lemma FirstQuantum(bytes: seq<Byte>)
    requires |bytes| >= QUANTUM
    ensures Quantum(bytes, 0) == bytes[..QUANTUM]
  {}

  lemma QuantumBehind(bytes: seq<Byte>, j: nat)
    requires |bytes| >= QUANTUM
    ensures Quantum(bytes[QUANTUM..], j) == Quantum(bytes, j + 1)
  {}

  class KeyDb {
    var slots: map<nat, seq<Byte>>
    var last: nat

    ghost function View(): Store
      reads this
    {
      Store(slots, last)
    }

    constructor ()
      ensures View() == Store(map[], 0)
    {
      slots, last := map[], 0;
    }

    function Available(): nat
      reads this
    {
      |slots| * QUANTUM
    }

    method Insert(data: seq<Byte>) returns (id: nat)
      requires View().Valid()
      modifies this
      ensures View() == Inserted(old(View()), data)
      ensures 0 < id < AMOUNT ==> id in slots && slots[id] == data
    {
      if |data| != QUANTUM { return 0; }
      id := last + 1;
      if id >= AMOUNT {
        last := AMOUNT;
        return last;
      }
      while id != last && id in slots
        invariant id < AMOUNT
        invariant NextFree(slots, last, id) == NextFree(slots, last, last + 1)
        decreases Steps(id, last)
      {
        id := id + 1;
        if id == AMOUNT { id := 0; }
      }
      if id == last { return 0; }
      slots := slots[id := data];
      last := id;
    }

    method Delete(ids: seq<nat>)
      requires View().Valid()
      modifies this
      ensures View() == Deleted(old(View()), ids)
      ensures last == old(last) && forall id :: id in slots <==> id in old(slots) && id !in ids
      ensures forall id :: id in slots ==> slots[id] == old(slots)[id]
    {
      ghost var before := slots;
      for i := 0 to |ids|
        invariant last == old(last)
        invariant slots == map id | id in before && id !in ids[..i] :: before[id]
      {
        assert ids[..i + 1] == ids[..i] + [ids[i]];
        slots := slots - {ids[i]};
      }
      assert ids[..|ids|] == ids;
    }

    /** Scan for consecutive ids; a gap starts the collection anew. */
    method FindContinuous(bytes: nat) returns (ids: seq<nat>)
      requires View().Valid()
      ensures ids == FirstRun(slots, bytes)
    {
      hide FirstStart, RunAt, Scanned, FirstRun;
      var need := Needed(bytes);
      ids := [];
      ScanStart(slots, need);
      for i := 0 to AMOUNT
        invariant Scanned(slots, need, i, ids)
      {
        ScanNext(slots, bytes, i, ids);
        if i !in slots {
          ids := [];
        } else {
          ids := ids + [i];
          if |ids| == need { return; }
        }
      }
      ScanEnd(slots, bytes, ids);
      ids := [];
    }

    /** The keys with these ids, in a ring. */
    method Ring(ids: seq<nat>) returns (ring: KeyRing)
      requires View().Valid() && forall id :: id in ids ==> id in slots
      ensures fresh(ring) && Chunked(ring.keys, QUANTUM) && Bytes(ring.keys) == Material(slots, ids)
    {
      ring := new KeyRing(QUANTUM, 0);
      for i := 0 to |ids|
        invariant fresh(ring) && Chunked(ring.keys, QUANTUM)
        invariant Bytes(ring.keys) == Material(slots, ids[..i])
      {
        assert ids[..i + 1][..i] == ids[..i];
        ring.PushBack(slots[ids[i]]);
      }
      assert ids[..|ids|] == ids;
    }
  }

  /** The keys in front of i that are collected when the scan reaches i, and no run starts earlier. */
  ghost predicate Scanned(slots: map<nat, seq<Byte>>, need: nat, i: nat, ids: seq<nat>) {
    && |ids| <= i && (need > 0 ==> |ids| < need)
    && (forall j :: 0 <= j < |ids| ==> ids[j] == i - |ids| + j && ids[j] in slots)
    && (forall s :: 0 <= s < i - |ids| ==> !RunAt(slots, s, need) || need == 0)
  }

  lemma ScanStart(slots: map<nat, seq<Byte>>, need: nat)
    ensures Scanned(slots, need, 0, [])
  {}

  lemma ScanNext(slots: map<nat, seq<Byte>>, bytes: nat, i: nat, ids: seq<nat>)
    requires i < AMOUNT && Scanned(slots, Needed(bytes), i, ids)
    ensures i !in slots ==> Scanned(slots, Needed(bytes), i + 1, [])
    ensures i in slots && |ids| + 1 != Needed(bytes) ==> Scanned(slots, Needed(bytes), i + 1, ids + [i])
    ensures i in slots && |ids| + 1 == Needed(bytes) ==> ids + [i] == FirstRun(slots, bytes)
  {
    var need := Needed(bytes);
    if i in slots && |ids| + 1 == need {
      var s := i - |ids|;
      forall j | s <= j < s + need
        ensures j in slots
      {
        if j < i { assert ids[j - s] in slots; }
      }
      assert RunAt(slots, s, need);
      FirstStartIsFirst(slots, need, 0, s);
    }
  }

  lemma ScanEnd(slots: map<nat, seq<Byte>>, bytes: nat, ids: seq<nat>)
    requires Scanned(slots, Needed(bytes), AMOUNT, ids)
    ensures FirstRun(slots, bytes) == []
  {
    if bytes > 0 { NoStart(slots, Needed(bytes), 0); }
  }
}
