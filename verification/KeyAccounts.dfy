/** What becomes of the keys that are pushed, over whole runs of the key synchronisation. */
module KeyAccounts {
  import opened Options
  import opened Stash
  import opened KeySynchronization

  function PushOf(ofAlice: bool, key: Key, now: int): Event {
    if ofAlice then AlicePush(key, now) else BobPush(key, now)
  }

  function StartOf(ofAlice: bool, now: int): Event {
    if ofAlice then AliceStart(now) else BobStart(now)
  }

  /** The time at which a party has begun its last cycle. */
  function LastStart(events: seq<Event>, ofAlice: bool): (start: Option<int>) {
    if events == [] then None
    else
      match events[|events| - 1]
      case AliceStart(now) => if ofAlice then Some(now) else LastStart(events[..|events| - 1], ofAlice)
      case BobStart(now) => if ofAlice then LastStart(events[..|events| - 1], ofAlice) else Some(now)
      case _ => LastStart(events[..|events| - 1], ofAlice)
  }

  ghost predicate WasPushed(events: seq<Event>, ofAlice: bool, key: Key) {
    !key.IsNull() && exists now :: PushOf(ofAlice, key, now) in events
  }

  /** A key of that id was pushed, and a cycle began later than its time to live allows. */
  ghost predicate HasExpired(events: seq<Event>, ofAlice: bool, ttl: nat, id: nat) {
    exists i, j, key: Key, t: int, now: int :: LateAt(events, ofAlice, ttl, i, j, key, t, now) && key.id == id
  }

  ghost predicate LateAt(events: seq<Event>, ofAlice: bool, ttl: nat, i: nat, j: nat, key: Key, t: int, now: int) {
    && i < j < |events| && events[i] == PushOf(ofAlice, key, t) && events[j] == StartOf(ofAlice, now)
    && !key.IsNull() && now - t > ttl
  }

  /** Where the pushed keys of one party are, and that there are no others. */
  ghost predicate Accounted(p: Party, events: seq<Event>, ofAlice: bool) {
    && (forall k :: k in p.stash ==> !k.key.IsNull() && PushOf(ofAlice, k.key, k.stashed) in events)
    && (forall key :: key in p.handed ==> WasPushed(events, ofAlice, key))
    && (forall id :: id in p.purged ==> HasExpired(events, ofAlice, p.ttl, id))
    && (forall key, t :: PushOf(ofAlice, key, t) in events && !key.IsNull() ==>
          StashedKey(key, t) in p.stash || key.id in p.purged || key in p.handed)
  }

  /** Within a cycle every stashed key was in time when the cycle began. */
  ghost predicate InTime(p: Party, start: Option<int>) {
    start.Some? && forall k :: k in p.stash ==> start.value - k.stashed <= p.ttl
  }

  ghost predicate Settled(w: World, events: seq<Event>, ttlA: nat, ttlB: nat) {
    && w.a.ttl == ttlA && w.b.ttl == ttlB
    && Accounted(w.a, events, true) && Accounted(w.b, events, false)
    && (!w.alice.AliceIdle? ==> InTime(w.a, LastStart(events, true)))
    && (!w.bob.BobIdle? ==> InTime(w.b, LastStart(events, false)))
  }

  lemma StillPushed(events: seq<Event>, e: Event, ofAlice: bool, key: Key)
    requires WasPushed(events, ofAlice, key)
    ensures WasPushed(events + [e], ofAlice, key)
  {
    var now :| PushOf(ofAlice, key, now) in events;
    assert PushOf(ofAlice, key, now) in events + [e];
  }

  lemma StillExpired(events: seq<Event>, e: Event, ofAlice: bool, ttl: nat, id: nat)
    requires HasExpired(events, ofAlice, ttl, id)
    ensures HasExpired(events + [e], ofAlice, ttl, id)
  {
    var i, j, key: Key, t: int, now: int :| LateAt(events, ofAlice, ttl, i, j, key, t, now) && key.id == id;
    assert LateAt(events + [e], ofAlice, ttl, i, j, key, t, now);
  }

  /** An event that pushes nothing for this party changes nothing in its accounts. */
  lemma OthersAccounted(p: Party, events: seq<Event>, e: Event, ofAlice: bool)
    requires Accounted(p, events, ofAlice) && !(if ofAlice then e.AlicePush? else e.BobPush?)
    ensures Accounted(p, events + [e], ofAlice)
  {
    hide WasPushed, HasExpired;
    forall key | key in p.handed
      ensures WasPushed(events + [e], ofAlice, key)
    {
      StillPushed(events, e, ofAlice, key);
    }
    forall id | id in p.purged
      ensures HasExpired(events + [e], ofAlice, p.ttl, id)
    {
      StillExpired(events, e, ofAlice, p.ttl, id);
    }
  }

  lemma PushAccounted(p: Party, events: seq<Event>, ofAlice: bool, key: Key, now: int)
    requires Accounted(p, events, ofAlice)
    ensures Accounted(Pushed(p, key, now), events + [PushOf(ofAlice, key, now)], ofAlice)
  {
    hide WasPushed, HasExpired;
    var e := PushOf(ofAlice, key, now);
    forall x | x in p.handed
      ensures WasPushed(events + [e], ofAlice, x)
    {
      StillPushed(events, e, ofAlice, x);
    }
    forall id | id in p.purged
      ensures HasExpired(events + [e], ofAlice, p.ttl, id)
    {
      StillExpired(events, e, ofAlice, p.ttl, id);
    }
  }

  lemma RemovedKeeps(s: seq<StashedKey>, id: nat, k: StashedKey)
    requires k in s && k.key.id != id
    ensures k in Removed(s, id)
  {
    hide Ids;
    var i := Find(s, id);
    hide Find;
    var j :| 0 <= j < |s| && s[j] == k;
    if i < |s| { ErasedOther(s, i, j); }
  }

  lemma ErasedOther(s: seq<StashedKey>, i: nat, j: nat)
    requires i < |s| && j < |s| && i != j
    ensures s[j] in s[..i] + s[i + 1..]
  {
    assert (s[..i] + s[i + 1..])[if j < i then j else j - 1] == s[j];
  }

  lemma {:induction false} RemovedAllKeeps(s: seq<StashedKey>, ids: seq<nat>, k: StashedKey)
    requires k in s && k.key.id !in ids
    ensures k in RemovedAll(s, ids)
    decreases |ids|
  {
    hide Removed;
    if ids != [] {
      RemovedAllKeeps(s, ids[..|ids| - 1], k);
      RemovedKeeps(RemovedAll(s, ids[..|ids| - 1]), ids[|ids| - 1], k);
    }
  }

  lemma {:induction false} ExpiredWhy(s: seq<StashedKey>, now: int, ttl: nat, id: nat)
    requires id in Expired(s, now, ttl)
    ensures exists k :: k in s && k.key.id == id && now - k.stashed > ttl
    decreases |s|
  {
    var l := |s| - 1;
    if id in Expired(s[..l], now, ttl) {
      ExpiredWhy(s[..l], now, ttl, id);
      var k :| k in s[..l] && k.key.id == id && now - k.stashed > ttl;
      assert k in s;
    } else {
      assert s[l] in s;
    }
  }

  lemma PurgeAccounted(p: Party, events: seq<Event>, ofAlice: bool, now: int)
    requires Accounted(p, events, ofAlice) && Conserved(p)
    ensures Accounted(Purged(p, now), events + [StartOf(ofAlice, now)], ofAlice)
    ensures InTime(Purged(p, now), Some(now))
  {
    hide Conserved, Expired, RemovedAll, HasExpired, WasPushed;
    var e, ids, q := StartOf(ofAlice, now), Expired(p.stash, now, p.ttl), Purged(p, now);
    OthersAccounted(p, events, e, ofAlice);
    PurgeMembers(p, now);
    forall k | k in q.stash
      ensures now - k.stashed <= p.ttl
    {
      SurvivorInTime(p, now, k);
    }
    forall id | id in q.purged
      ensures HasExpired(events + [e], ofAlice, p.ttl, id)
    {
      if id in ids { PurgedExpired(p, events, ofAlice, now, id); }
    }
    forall k | k in p.stash && k.key.id !in ids
      ensures k in q.stash
    {
      RemovedAllKeeps(p.stash, ids, k);
    }
  }

  lemma PurgeMembers(p: Party, now: int)
    requires Conserved(p)
    ensures forall k :: k in Purged(p, now).stash ==> k in p.stash
  {
    hide Elements, Removed, Expired, RemovedAll;
    RemovedAllIds(p.stash, Expired(p.stash, now, p.ttl));
  }

  lemma SurvivorInTime(p: Party, now: int, k: StashedKey)
    requires Conserved(p) && k in Purged(p, now).stash
    ensures now - k.stashed <= p.ttl
  {
    hide Conserved, Expired, RemovedAll;
    PurgeMembers(p, now);
    var i :| 0 <= i < |p.stash| && p.stash[i] == k;
    var j :| 0 <= j < |Purged(p, now).stash| && Purged(p, now).stash[j] == k;
    assert Ids(Purged(p, now).stash)[j] == k.key.id;
    PurgesExpired(p, now, i);
  }

  lemma PurgedExpired(p: Party, events: seq<Event>, ofAlice: bool, now: int, id: nat)
    requires Accounted(p, events, ofAlice) && id in Expired(p.stash, now, p.ttl)
    ensures HasExpired(events + [StartOf(ofAlice, now)], ofAlice, p.ttl, id)
  {
    hide Expired, WasPushed;
    ExpiredWhy(p.stash, now, p.ttl, id);
    var k :| k in p.stash && k.key.id == id && now - k.stashed > p.ttl;
    var i :| 0 <= i < |events| && events[i] == PushOf(ofAlice, k.key, k.stashed);
    var all := events + [StartOf(ofAlice, now)];
    assert LateAt(all, ofAlice, p.ttl, i, |events|, k.key, k.stashed, now);
  }

  lemma HandAccounted(p: Party, events: seq<Event>, e: Event, ofAlice: bool, k: StashedKey)
    requires Accounted(p, events, ofAlice) && Conserved(p) && k in p.stash
    requires !(if ofAlice then e.AlicePush? else e.BobPush?)
    ensures Accounted(Handed(p, k.key), events + [e], ofAlice)
  {
    hide HasExpired, Removed, Conserved;
    OthersAccounted(p, events, e, ofAlice);
    RemovedMembers(p.stash, k.key.id);
    assert PushOf(ofAlice, k.key, k.stashed) in events + [e];
    forall x | x in p.stash && x != k
      ensures x in Removed(p.stash, k.key.id)
    {
      OnlyOne(p, k, x);
      RemovedKeeps(p.stash, k.key.id, x);
    }
  }

  lemma OnlyOne(p: Party, k: StashedKey, x: StashedKey)
    requires Conserved(p) && k in p.stash && x in p.stash && x != k
    ensures x.key.id != k.key.id
  {
    hide Elements;
    var i :| 0 <= i < |p.stash| && p.stash[i] == k;
    var j :| 0 <= j < |p.stash| && p.stash[j] == x;
    assert Ids(p.stash)[i] == k.key.id && Ids(p.stash)[j] == x.key.id;
  }

  lemma PeerAccounted(p: Party, events: seq<Event>, ofAlice: bool, peer: seq<nat>)
    requires Accounted(p, events, ofAlice)
    ensures Accounted(p.(peer := peer), events, ofAlice)
  {
    hide WasPushed, HasExpired;
  }

  lemma InStash(s: seq<StashedKey>, id: nat)
    requires id in Ids(s)
    ensures s[Find(s, id)] in s && s[Find(s, id)].key.id == id
  {}

  lemma StartsLast(events: seq<Event>, e: Event)
    ensures LastStart(events + [e], true) == if e.AliceStart? then Some(e.now) else LastStart(events, true)
    ensures LastStart(events + [e], false) == if e.BobStart? then Some(e.now) else LastStart(events, false)
  {
    assert (events + [e])[..|events + [e]| - 1] == events;
  }

  /** Every event settles. */
  lemma StepSettles(w: World, events: seq<Event>, e: Event, ttlA: nat, ttlB: nat)
    requires Sound(w) && Enabled(w, e) && Settled(w, events, ttlA, ttlB)
    ensures Settled(Next(w, e), events + [e], ttlA, ttlB)
  {
    StartsLast(events, e);
    if !e.AlicePush? { OthersAccounted(w.a, events, e, true); }
    if !e.BobPush? { OthersAccounted(w.b, events, e, false); }
    hide Accounted, Conserved, LastStart, Purged, Ids, Find, Removed, Choice, KeyIds;
    match e
    case AlicePush(key, now) => PushAccounted(w.a, events, true, key, now);
    case BobPush(key, now) => PushAccounted(w.b, events, false, key, now);
    case AliceStart(now) =>
      PurgeAccounted(w.a, events, true, now);
      PurgedTtl(w.a, now);
    case BobStart(now) =>
      PurgeAccounted(w.b, events, false, now);
      PurgedTtl(w.b, now);
    case AliceGetsList => PeerAccounted(w.a, events + [e], true, w.toAlice[0].ids);
    case AliceGetsAnswer =>
      InStash(w.a.stash, w.alice.key.id);
      HandAccounted(w.a, events, e, true, w.a.stash[Find(w.a.stash, w.alice.key.id)]);
    case BobGetsProposal =>
      if w.toBob[0].Pick? {
        InStash(w.b.stash, w.toBob[0].id);
        HandAccounted(w.b, events, e, false, w.b.stash[Find(w.b.stash, w.toBob[0].id)]);
      }
  }

  lemma PurgedTtl(p: Party, now: int)
    ensures Purged(p, now).ttl == p.ttl
  {}

  lemma {:induction false} RunLast(w: World, events: seq<Event>)
    requires IsRun(w, events) && events != []
    ensures var l := |events| - 1;
      IsRun(w, events[..l]) && Enabled(Run(w, events[..l]), events[l])
      && Run(w, events) == Next(Run(w, events[..l]), events[l])
    decreases |events|
  {
    hide Enabled, Next;
    var l := |events| - 1;
    if l > 0 {
      RunLast(Next(w, events[0]), events[1..]);
      assert events[..l][0] == events[0] && events[..l][1..] == events[1..][..l - 1];
    } else {
      assert events[1..] == [] && events[..0] == [];
    }
  }

  lemma StartSettled(ttlA: nat, ttlB: nat)
    ensures Settled(Start(ttlA, ttlB), [], ttlA, ttlB)
  {}

  lemma {:induction false} RunSettles(ttlA: nat, ttlB: nat, events: seq<Event>)
    requires IsRun(Start(ttlA, ttlB), events)
    ensures Settled(Run(Start(ttlA, ttlB), events), events, ttlA, ttlB)
    decreases |events|
  {
    hide Settled, Sound, Next, Enabled;
    if events == [] {
      StartSettled(ttlA, ttlB);
    } else {
      hide Run, IsRun;
      var l := |events| - 1;
      RunLast(Start(ttlA, ttlB), events);
      RunSettles(ttlA, ttlB, events[..l]);
      RunSound(ttlA, ttlB, events[..l]);
      assert events == events[..l] + [events[l]];
      StepSettles(Run(Start(ttlA, ttlB), events[..l]), events[..l], events[l], ttlA, ttlB);
    }
  }

  /**
   * In every run: every key that is pushed is in exactly one place, stashed as it was pushed, handed out as it was
   * pushed, or purged.
   */
  lemma PushedKeyKept(ttlA: nat, ttlB: nat, events: seq<Event>, ofAlice: bool, key: Key, t: int)
    requires IsRun(Start(ttlA, ttlB), events) && PushOf(ofAlice, key, t) in events && !key.IsNull()
    ensures
      var w := Run(Start(ttlA, ttlB), events);
      var p := if ofAlice then w.a else w.b;
      && OneOf(true, StashedKey(key, t) in p.stash, key.id in p.purged, key in p.handed)
      && OneOf(true, key.id in Ids(p.stash), key.id in p.purged, key.id in KeyIds(p.handed))
  {
    RunSettles(ttlA, ttlB, events);
    NoKeyLost(ttlA, ttlB, events, key.id);
    hide Run, IsRun;
    var w := Run(Start(ttlA, ttlB), events);
    var p := if ofAlice then w.a else w.b;
    if StashedKey(key, t) in p.stash {
      var i :| 0 <= i < |p.stash| && p.stash[i] == StashedKey(key, t);
      assert Ids(p.stash)[i] == key.id;
    }
    if key in p.handed {
      var i :| 0 <= i < |p.handed| && p.handed[i] == key;
      assert KeyIds(p.handed)[i] == key.id;
    }
  }

  /** In every run: whatever is stashed or handed out was pushed, and what is purged had expired. */
  lemma NothingElse(ttlA: nat, ttlB: nat, events: seq<Event>, ofAlice: bool)
    requires IsRun(Start(ttlA, ttlB), events)
    ensures
      var w := Run(Start(ttlA, ttlB), events);
      var p := if ofAlice then w.a else w.b;
      && (forall k :: k in p.stash ==> !k.key.IsNull() && PushOf(ofAlice, k.key, k.stashed) in events)
      && (forall key :: key in p.handed ==> WasPushed(events, ofAlice, key))
      && (forall id :: id in p.purged ==> HasExpired(events, ofAlice, if ofAlice then ttlA else ttlB, id))
  {
    hide Run, IsRun, WasPushed, HasExpired;
    RunSettles(ttlA, ttlB, events);
  }

  /** In every run: a key that Alice proposes was in time when the cycle began, on both sides. */
  lemma ProposedInTime(ttlA: nat, ttlB: nat, events: seq<Event>)
    requires IsRun(Start(ttlA, ttlB), events)
    ensures
      var w, startA := Run(Start(ttlA, ttlB), events), LastStart(events, true);
      w.alice.Asking? ==>
        && startA.Some?
        && exists t :: AlicePush(w.alice.key, t) in events && startA.value - t <= ttlA
    ensures
      var w, startB := Run(Start(ttlA, ttlB), events), LastStart(events, false);
      w.bob.Waiting? && w.toBob != [] && w.toBob[0].Pick? ==>
        && startB.Some?
        && exists key: Key, t :: key.id == w.toBob[0].id && BobPush(key, t) in events && startB.value - t <= ttlB
  {
    RunSettles(ttlA, ttlB, events);
    RunSound(ttlA, ttlB, events);
    hide Run, IsRun, WasPushed, HasExpired, Conserved, KeyIds;
    var w := Run(Start(ttlA, ttlB), events);
    if w.alice.Asking? {
      InStash(w.a.stash, w.alice.key.id);
      var k := w.a.stash[Find(w.a.stash, w.alice.key.id)];
      assert PushOf(true, k.key, k.stashed) in events;
    }
    if w.bob.Waiting? && w.toBob != [] && w.toBob[0].Pick? {
      InStash(w.b.stash, w.toBob[0].id);
      var k := w.b.stash[Find(w.b.stash, w.toBob[0].id)];
      assert PushOf(false, k.key, k.stashed) in events;
    }
  }

  /** The answer that Alice waits for lets her hand out the key that she has proposed. */
  lemma AnswerHandsOut(w: World)
    requires Sound(w) && Enabled(w, AliceGetsAnswer)
    ensures var next := Next(w, AliceGetsAnswer);
      && w.toAlice[0].PickAck? && next.a.handed == w.a.handed + [w.alice.key]
      && w.alice.key.id !in Ids(next.a.stash) && next.alice.AliceIdle?
  {
    hide KeyIds, Elements;
    RemovedIdsIn(w.a.stash, w.alice.key.id);
  }

  lemma ProposalIs(w: World)
    requires Sound(w) && Enabled(w, BobGetsProposal) && w.toBob[0].Pick?
    ensures w.alice.Asking? && w.toBob == [Pick(w.alice.key.id)] && w.toAlice == [] && w.bob.Waiting?
    ensures w.alice.key.id in Ids(w.b.stash) && Distinct(Ids(w.b.stash))
  {
    hide KeyIds, Elements, Find;
  }

  /** The proposal that Bob reads is the one that Alice waits for, and he hands out his key of that id. */
  lemma ProposalHandsOut(w: World)
    requires Sound(w) && Enabled(w, BobGetsProposal) && w.toBob[0].Pick?
    ensures w.alice.Asking? && w.alice.key.id == w.toBob[0].id && w.toBob[0].id in Ids(w.b.stash)
    ensures var next, k := Next(w, BobGetsProposal), w.b.stash[Find(w.b.stash, w.toBob[0].id)];
      && next.b.handed == w.b.handed + [k.key] && k.key.id == w.toBob[0].id
      && w.toBob[0].id !in Ids(next.b.stash) && next.toAlice == [PickAck] && next.bob.BobIdle?
  {
    ProposalIs(w);
    BobsNext(w);
    hide *;
    InStash(w.b.stash, w.toBob[0].id);
    RemovedIdsIn(w.b.stash, w.toBob[0].id);
  }

  lemma BobsNext(w: World)
    requires w.bob.Waiting? && w.toBob != [] && w.toBob[0].Pick? && w.toBob[0].id in Ids(w.b.stash)
    ensures var next, k := Next(w, BobGetsProposal), w.b.stash[Find(w.b.stash, w.toBob[0].id)];
      && next.b.handed == w.b.handed + [k.key] && next.b.stash == Removed(w.b.stash, k.key.id)
      && next.bob.BobIdle? && next.toAlice == w.toAlice + [PickAck]
  {
    hide Removed, RemovedId, Ids;
  }

  /** In every run: the answer to a proposal hands the proposed key out, first on Bob's side and then on Alice's. */
  lemma HandsOut(ttlA: nat, ttlB: nat, events: seq<Event>)
    requires IsRun(Start(ttlA, ttlB), events)
    ensures
      var w := Run(Start(ttlA, ttlB), events);
      && (Enabled(w, AliceGetsAnswer) ==>
            var next := Next(w, AliceGetsAnswer);
            next.a.handed == w.a.handed + [w.alice.key] && w.alice.key.id !in Ids(next.a.stash))
      && (Enabled(w, BobGetsProposal) && w.toBob[0].Pick? ==>
            var next := Next(w, BobGetsProposal);
            && w.alice.Asking? && w.alice.key.id == w.toBob[0].id && next.toAlice == [PickAck]
            && |next.b.handed| == |w.b.handed| + 1 && next.b.handed[..|w.b.handed|] == w.b.handed
            && next.b.handed[|w.b.handed|].id == w.toBob[0].id && w.toBob[0].id !in Ids(next.b.stash))
  {
    RunSound(ttlA, ttlB, events);
    hide Run, IsRun, Sound, Next;
    var w := Run(Start(ttlA, ttlB), events);
    if Enabled(w, AliceGetsAnswer) { AnswerHandsOut(w); }
    if Enabled(w, BobGetsProposal) && w.toBob[0].Pick? { ProposalHandsOut(w); }
  }

  /** What a stash object and the keys it has handed out are in a world of the state machine. */
  ghost predicate Plays(stash: KeyStash, handed: seq<Key>, p: Party)
    reads stash
  {
    stash.stash == p.stash && stash.peer == p.peer && stash.ttl == p.ttl && handed == p.handed
  }

  /** Two stash objects and two channels, driven by the events of a run, do what the state machine does. */
  method Play(alice: KeyStash, bob: KeyStash, events: seq<Event>) returns (handedA: seq<Key>, handedB: seq<Key>)
    requires alice != bob && alice.stash == [] && bob.stash == [] && alice.peer == [] && bob.peer == []
    requires IsRun(Start(alice.ttl, bob.ttl), events)
    modifies alice, bob
    ensures var w := Run(Start(old(alice.ttl), old(bob.ttl)), events);
      Plays(alice, handedA, w.a) && Plays(bob, handedB, w.b)
  {
    hide Run, IsRun, Removed, RemovedId, Expired, RemovedAll, Ids, Sound;
    ghost var start := Start(alice.ttl, bob.ttl);
    ghost var w := start;
    handedA, handedB := [], [];
    var phase, waiting: bool := AliceIdle, false;
    var toAlice: seq<Message>, toBob: seq<Message> := [], [];
    EmptyRun(start, events);
    for i := 0 to |events|
      invariant IsRun(start, events[..i]) && w == Run(start, events[..i])
      invariant Plays(alice, handedA, w.a) && Plays(bob, handedB, w.b)
      invariant w.alice == phase && w.bob.Waiting? == waiting && w.toAlice == toAlice && w.toBob == toBob
    {
      RunPrefix(start, events, i);
      ghost var before := w;
      w := Next(w, events[i]);
      match events[i]
      case AlicePush(key, now) => alice.Push(key, now);
      case BobPush(key, now) => bob.Push(key, now);
      case AliceStart(now) =>
        alice.Purge(now);
        phase := Listening;
      case BobStart(now) =>
        bob.Purge(now);
        var list := bob.Send();
        toAlice, waiting := toAlice + [list], true;
      case AliceGetsList =>
        var ok := alice.Recv(toAlice[0]);
        toAlice, phase := toAlice[1..], AliceIdle;
        if ok {
          var key, proposal := alice.ProposePick();
          toBob := toBob + [proposal];
          if !key.IsNull() { phase := Asking(key); }
        }
      case AliceGetsAnswer =>
        var res := alice.ConcludePick(phase.key, toAlice[0]);
        if res.Picked? { handedA := handedA + [res.key]; }
        toAlice, phase := toAlice[1..], AliceIdle;
      case BobGetsProposal =>
        ProposalExpected(before, events[..i], start.a.ttl, start.b.ttl);
        var res, answer := bob.AnswerPick(toBob[0]);
        if res.Picked? { handedB := handedB + [res.key]; }
        toAlice, toBob, waiting := toAlice + answer, toBob[1..], false;
    }
    assert events[..|events|] == events;
  }

  lemma EmptyRun(w: World, events: seq<Event>)
    ensures IsRun(w, events[..0]) && Run(w, events[..0]) == w
  {}

  lemma RunPrefix(w: World, events: seq<Event>, i: nat)
    requires IsRun(w, events) && i < |events|
    ensures IsRun(w, events[..i]) && IsRun(w, events[..i + 1])
    ensures Enabled(Run(w, events[..i]), events[i]) && Run(w, events[..i + 1]) == Next(Run(w, events[..i]), events[i])
  {
    hide Run, IsRun, Next, Enabled;
    PrefixRuns(w, events, i + 1);
    RunLast(w, events[..i + 1]);
    assert events[..i + 1][..i] == events[..i];
  }

  lemma {:induction false} PrefixRuns(w: World, events: seq<Event>, i: nat)
    requires IsRun(w, events) && i <= |events|
    ensures IsRun(w, events[..i])
    decreases |events| - i
  {
    hide Run, IsRun, Next, Enabled;
    if i < |events| {
      PrefixRuns(w, events, i + 1);
      RunLast(w, events[..i + 1]);
      assert events[..i + 1][..i] == events[..i];
    } else {
      assert events[..i] == events;
    }
  }

  lemma ProposalExpected(w: World, events: seq<Event>, ttlA: nat, ttlB: nat)
    requires IsRun(Start(ttlA, ttlB), events) && w == Run(Start(ttlA, ttlB), events) && Enabled(w, BobGetsProposal)
    ensures w.toBob[0].NoPick? || (w.toBob[0].Pick? && w.toBob[0].id in Ids(w.b.stash))
  {
    RunSound(ttlA, ttlB, events);
    hide Run, IsRun, Conserved, KeyIds;
  }
}
