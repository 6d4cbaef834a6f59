/**
 * Alice and Bob synchronise their keys: runs of two stashes over two channels that keep the order of the
 * messages, with keys pushed and expiring on both sides at any time between the cycles.
 */
module KeySynchronization {
  import opened Stash

  /** Alice is between two cycles, waits for Bob's list, or waits for the answer to her proposal. */
  datatype AlicePhase = AliceIdle | Listening | Asking(key: Key)

  /** Bob is between two cycles or has sent his list and waits for a proposal. */
  datatype BobPhase = BobIdle | Waiting

  datatype Party = Party(stash: seq<StashedKey>, peer: seq<nat>, ttl: nat,
                         pushed: set<nat>, purged: set<nat>, handed: seq<Key>)

  datatype World = World(a: Party, b: Party, alice: AlicePhase, bob: BobPhase,
                         toAlice: seq<Message>, toBob: seq<Message>, failed: bool)

  datatype Event =
    | AlicePush(key: Key, now: int)
    | BobPush(key: Key, now: int)
    | AliceStart(now: int)
    | BobStart(now: int)
    | AliceGetsList
    | AliceGetsAnswer
    | BobGetsProposal

  function Elements(s: seq<nat>): set<nat> {
    set x | x in s
  }

  function KeyIds(s: seq<Key>): (r: seq<nat>)
    ensures |r| == |s| && forall i :: 0 <= i < |s| ==> r[i] == s[i].id
  {
    seq(|s|, i requires 0 <= i < |s| => s[i].id)
  }

  function Pushed(p: Party, key: Key, now: int): Party {
    if key.IsNull() then p
    else p.(stash := p.stash + [StashedKey(key, now)], pushed := p.pushed + {key.id})
  }

  function Purged(p: Party, now: int): Party {
    var ids := Expired(p.stash, now, p.ttl);
    p.(stash := RemovedAll(p.stash, ids), purged := p.purged + Elements(ids))
  }

  function Handed(p: Party, key: Key): Party {
    p.(stash := Removed(p.stash, key.id), peer := RemovedId(p.peer, key.id), handed := p.handed + [key])
  }

  /** A party acts between its cycles or when the message it waits for has come; ids are pushed once. */
  predicate Enabled(w: World, e: Event) {
    match e
    case AlicePush(key, _) => w.alice.AliceIdle? && key.id !in w.a.pushed
    case BobPush(key, _) => w.bob.BobIdle? && key.id !in w.b.pushed
    case AliceStart(_) => w.alice.AliceIdle?
    case BobStart(_) => w.bob.BobIdle?
    case AliceGetsList => w.alice.Listening? && w.toAlice != []
    case AliceGetsAnswer => w.alice.Asking? && w.toAlice != []
    case BobGetsProposal => w.bob.Waiting? && w.toBob != []
  }

  function Next(w: World, e: Event): World
    requires Enabled(w, e)
  {
    match e
    case AlicePush(key, now) => w.(a := Pushed(w.a, key, now))
    case BobPush(key, now) => w.(b := Pushed(w.b, key, now))
    case AliceStart(now) => w.(a := Purged(w.a, now), alice := Listening)
    case BobStart(now) =>
      var b := Purged(w.b, now);
      w.(b := b, bob := Waiting, toAlice := w.toAlice + [List(Ids(b.stash))])
    case AliceGetsList => AliceChooses(w.(toAlice := w.toAlice[1..]), w.toAlice[0])
    case AliceGetsAnswer => AliceConcludes(w.(toAlice := w.toAlice[1..]), w.toAlice[0])
    case BobGetsProposal => BobAnswers(w.(toBob := w.toBob[1..]), w.toBob[0])
  }

  function AliceChooses(w: World, m: Message): World {
    if !m.List? then w.(a := w.a.(peer := []), alice := AliceIdle, failed := true)
    else
      var i := Choice(w.a.stash, m.ids);
      var key := if i < |w.a.stash| then w.a.stash[i].key else NULL_KEY;
      var a := w.a.(peer := m.ids);
      if key.IsNull() then w.(a := a, alice := AliceIdle, toBob := w.toBob + [NoPick])
      else w.(a := a, alice := Asking(key), toBob := w.toBob + [Pick(key.id)])
  }

  function AliceConcludes(w: World, m: Message): World
    requires w.alice.Asking?
  {
    match m
    case PickAck => w.(a := Handed(w.a, w.alice.key), alice := AliceIdle)
    case PickNack => w.(alice := AliceIdle)
    case _ => w.(alice := AliceIdle, failed := true)
  }

  function BobAnswers(w: World, m: Message): World {
    match m
    case NoPick => w.(bob := BobIdle)
    case Pick(id) =>
      var i := Find(w.b.stash, id);
      if i < |w.b.stash| then
        w.(b := Handed(w.b, w.b.stash[i].key), bob := BobIdle, toAlice := w.toAlice + [PickAck])
      else w.(bob := BobIdle, toAlice := w.toAlice + [PickNack])
    case _ => w.(bob := BobIdle, failed := true)
  }

  function Start(ttlA: nat, ttlB: nat): World {
    World(Party([], [], ttlA, {}, {}, []), Party([], [], ttlB, {}, {}, []), AliceIdle, BobIdle, [], [], false)
  }

  /** A run: every event happens in a world in which it can. */
  ghost predicate IsRun(w: World, events: seq<Event>)
    decreases |events|
  {
    events == [] || (Enabled(w, events[0]) && IsRun(Next(w, events[0]), events[1..]))
  }

  function Run(w: World, events: seq<Event>): World
    requires IsRun(w, events)
    decreases |events|
  {
    if events == [] then w else Run(Next(w, events[0]), events[1..])
  }

  ghost predicate Distinct(s: seq<nat>) {
    forall i, j :: 0 <= i < j < |s| ==> s[i] != s[j]
  }

  /** Every pushed key is exactly one of stashed, purged and handed out, and none of them twice. */
  ghost predicate Conserved(p: Party) {
    && Distinct(Ids(p.stash)) && Distinct(KeyIds(p.handed))
    && (forall k :: k in p.stash ==> !k.key.IsNull())
    && Elements(Ids(p.stash)) + p.purged + Elements(KeyIds(p.handed)) == p.pushed
    && Elements(Ids(p.stash)) !! p.purged !! Elements(KeyIds(p.handed))
  }

  /** Where the messages of a cycle are. */
  ghost predicate Control(w: World) {
    var same := KeyIds(w.a.handed) == KeyIds(w.b.handed);
    match w.alice
    case Asking(key) =>
      && key.id in Ids(w.a.stash) && w.a.stash[Find(w.a.stash, key.id)].key == key
      && if w.toBob == [Pick(key.id)] then
           same && w.bob.Waiting? && w.toAlice == [] && key.id in Ids(w.b.stash)
         else
           && KeyIds(w.b.handed) == KeyIds(w.a.handed) + [key.id] && w.toBob == []
           && w.toAlice == [PickAck] + if w.bob.Waiting? then [List(Ids(w.b.stash))] else []
    case _ =>
      && same
      && if w.bob.BobIdle? then w.toAlice == [] && w.toBob == []
         else (w.toAlice == [List(Ids(w.b.stash))] && w.toBob == []) || (w.toAlice == [] && w.toBob == [NoPick])
  }

  ghost predicate Sound(w: World) {
    Conserved(w.a) && Conserved(w.b) && Control(w) && !w.failed
  }

  lemma RemovedIds(s: seq<StashedKey>, id: nat)
    requires Distinct(Ids(s))
    ensures Distinct(Ids(Removed(s, id))) && Elements(Ids(Removed(s, id))) == Elements(Ids(s)) - {id}
  {
    hide Elements;
    RemovedIdsIn(s, id);
    var i, r := Find(s, id), Removed(s, id);
    forall x
      ensures x in Elements(Ids(r)) <==> x in Elements(Ids(s)) - {id}
    {
      InElements(Ids(r), x);
      InElements(Ids(s), x);
    }
  }

  lemma RemovedMembers(s: seq<StashedKey>, id: nat)
    ensures forall k :: k in Removed(s, id) ==> k in s
  {}

  lemma RemovedIdsIn(s: seq<StashedKey>, id: nat)
    requires Distinct(Ids(s))
    ensures Distinct(Ids(Removed(s, id)))
    ensures forall x :: x in Ids(Removed(s, id)) <==> x in Ids(s) && x != id
  {
    hide Distinct, Ids, Find;
    var i := Find(s, id);
    if i < |s| {
      IdsErase(s, i);
      OneLess(Ids(s), i);
    }
  }

  lemma IdsErase(s: seq<StashedKey>, i: nat)
    requires i < |s|
    ensures Ids(s[..i] + s[i + 1..]) == Ids(s)[..i] + Ids(s)[i + 1..]
  {}

  lemma OneLess(t: seq<nat>, i: nat)
    requires Distinct(t) && i < |t|
    ensures var r := t[..i] + t[i + 1..]; Distinct(r) && forall x :: x in r <==> x in t && x != t[i]
  {
    var r := t[..i] + t[i + 1..];
    forall x
      ensures x in r <==> x in t && x != t[i]
    {
      if x in t && x != t[i] {
        var j :| 0 <= j < |t| && t[j] == x;
        assert r[if j < i then j else j - 1] == x;
      }
    }
  }

  lemma {:induction false} RemovedAllIds(s: seq<StashedKey>, ids: seq<nat>)
    requires Distinct(Ids(s))
    ensures Distinct(Ids(RemovedAll(s, ids))) && Elements(Ids(RemovedAll(s, ids))) == Elements(Ids(s)) - Elements(ids)
    ensures forall k :: k in RemovedAll(s, ids) ==> k in s
    decreases |ids|
  {
    hide Distinct, Removed, Ids;
    if ids != [] {
      var l := |ids| - 1;
      RemovedAllIds(s, ids[..l]);
      RemovedIds(RemovedAll(s, ids[..l]), ids[l]);
      RemovedMembers(RemovedAll(s, ids[..l]), ids[l]);
      assert Elements(ids) == Elements(ids[..l]) + {ids[l]};
    }
  }

  lemma {:induction false} ExpiredInside(s: seq<StashedKey>, now: int, ttl: nat)
    ensures Elements(Expired(s, now, ttl)) <= Elements(Ids(s))
    decreases |s|
  {
    hide Ids;
    if s != [] {
      var l := |s| - 1;
      ExpiredInside(s[..l], now, ttl);
      IdsLast(s);
    }
  }

  lemma IdsLast(s: seq<StashedKey>)
    requires s != []
    ensures Elements(Ids(s)) == Elements(Ids(s[..|s| - 1])) + {s[|s| - 1].key.id}
  {
    assert Ids(s) == Ids(s[..|s| - 1]) + [s[|s| - 1].key.id];
  }

  /** A key goes exactly when it is older than the time to live. */
  lemma PurgesExpired(p: Party, now: int, i: nat)
    requires Conserved(p) && i < |p.stash|
    ensures p.stash[i].key.id in Ids(Purged(p, now).stash) <==> now - p.stash[i].stashed <= p.ttl
  {
    hide Elements, RemovedAll;
    var ids := Expired(p.stash, now, p.ttl);
    RemovedAllIds(p.stash, ids);
    ExpiredExactly(p.stash, now, p.ttl, i);
    assert Ids(p.stash)[i] == p.stash[i].key.id;
    InElements(Ids(p.stash), p.stash[i].key.id);
    InElements(ids, p.stash[i].key.id);
    InElements(Ids(RemovedAll(p.stash, ids)), p.stash[i].key.id);
  }

  lemma InElements(s: seq<nat>, x: nat)
    ensures x in s <==> x in Elements(s)
  {}

  lemma {:induction false} ExpiredExactly(s: seq<StashedKey>, now: int, ttl: nat, i: nat)
    requires Distinct(Ids(s)) && i < |s|
    ensures s[i].key.id in Expired(s, now, ttl) <==> now - s[i].stashed > ttl
    decreases |s|
  {
    hide Elements;
    var l := |s| - 1;
    assert Distinct(Ids(s[..l])) by { assert forall j :: 0 <= j < l ==> Ids(s[..l])[j] == Ids(s)[j]; }
    if i < l {
      ExpiredExactly(s[..l], now, ttl, i);
      assert Ids(s)[i] != Ids(s)[l];
    } else {
      ExpiredInside(s[..l], now, ttl);
      InElements(Expired(s[..l], now, ttl), s[l].key.id);
      InElements(Ids(s[..l]), s[l].key.id);
      assert forall j :: 0 <= j < l ==> Ids(s[..l])[j] == Ids(s)[j] != Ids(s)[l];
    }
  }

  lemma PushKeeps(p: Party, key: Key, now: int)
    requires Conserved(p) && key.id !in p.pushed
    ensures Conserved(Pushed(p, key, now))
  {
    if !key.IsNull() {
      var t := p.stash + [StashedKey(key, now)];
      assert Ids(t) == Ids(p.stash) + [key.id];
      assert Elements(Ids(t)) == Elements(Ids(p.stash)) + {key.id};
      assert key.id !in Elements(Ids(p.stash));
    }
  }

  lemma PurgeKeeps(p: Party, now: int)
    requires Conserved(p)
    ensures Conserved(Purged(p, now))
  {
    hide Distinct, Expired, RemovedAll;
    var ids := Expired(p.stash, now, p.ttl);
    ExpiredInside(p.stash, now, p.ttl);
    RemovedAllIds(p.stash, ids);
  }

  lemma HandKeeps(p: Party, key: Key)
    requires Conserved(p) && key.id in Ids(p.stash)
    ensures Conserved(Handed(p, key))
  {
    hide Removed, RemovedId;
    RemovedIds(p.stash, key.id);
    RemovedMembers(p.stash, key.id);
    assert KeyIds(p.handed + [key]) == KeyIds(p.handed) + [key.id];
    assert Elements(KeyIds(p.handed + [key])) == Elements(KeyIds(p.handed)) + {key.id};
    assert key.id in Elements(Ids(p.stash));
    assert key.id !in Elements(KeyIds(p.handed));
  }

  /** Every event keeps the invariant, whatever the interleaving. */
  lemma StepKeeps(w: World, e: Event)
    requires Sound(w) && Enabled(w, e)
    ensures Sound(Next(w, e))
  {
    hide Conserved, Ids, KeyIds, Find, Removed, RemovedAll, Expired;
    match e
    case AlicePush(key, now) => PushKeeps(w.a, key, now);
    case BobPush(key, now) => PushKeeps(w.b, key, now);
    case AliceStart(now) => PurgeKeeps(w.a, now);
    case BobStart(now) => PurgeKeeps(w.b, now);
    case AliceGetsList => ChoiceKeeps(w);
    case AliceGetsAnswer => AnswerKeeps(w);
    case BobGetsProposal => ProposalKeeps(w);
  }

  lemma PeerKeeps(p: Party, peer: seq<nat>)
    requires Conserved(p)
    ensures Conserved(p.(peer := peer))
  {}

  lemma ChoiceKeeps(w: World)
    requires Sound(w) && w.alice.Listening? && w.toAlice != []
    ensures Sound(Next(w, AliceGetsList))
  {
    hide Conserved, KeyIds;
    PeerKeeps(w.a, Ids(w.b.stash));
    var s, ids := w.a.stash, Ids(w.b.stash);
    var i := Choice(s, ids);
    if i < |s| {
      assert Ids(s)[i] == s[i].key.id;
      var f := Find(s, s[i].key.id);
      assert Ids(s)[f] == s[f].key.id;
    }
  }

  lemma AnswerKeeps(w: World)
    requires Sound(w) && w.alice.Asking? && w.toAlice != []
    ensures Sound(Next(w, AliceGetsAnswer))
  {
    var key := w.alice.key;
    HandKeeps(w.a, key);
    assert KeyIds(w.a.handed + [key]) == KeyIds(w.a.handed) + [key.id];
  }

  lemma ProposalKeeps(w: World)
    requires Sound(w) && w.bob.Waiting? && w.toBob != []
    ensures Sound(Next(w, BobGetsProposal))
  {
    if w.toBob != [NoPick] {
      var id := w.alice.key.id;
      var key := w.b.stash[Find(w.b.stash, id)].key;
      HandKeeps(w.b, key);
      assert KeyIds(w.b.handed + [key]) == KeyIds(w.b.handed) + [id];
    }
  }

  /** Every run from empty stashes keeps the invariant. */
  lemma {:induction false} RunKeeps(w: World, events: seq<Event>)
    requires Sound(w) && IsRun(w, events)
    ensures Sound(Run(w, events))
    decreases |events|
  {
    hide Sound, Enabled, Next;
    if events != [] {
      StepKeeps(w, events[0]);
      RunKeeps(Next(w, events[0]), events[1..]);
    }
  }

  lemma RunSound(ttlA: nat, ttlB: nat, events: seq<Event>)
    requires IsRun(Start(ttlA, ttlB), events)
    ensures Sound(Run(Start(ttlA, ttlB), events))
  {
    RunKeeps(Start(ttlA, ttlB), events);
  }

  /**
   * In every run Alice and Bob hand out the same ids in the same order, no id twice; Bob is at most one key
   * ahead, and only while his answer is on its way. No proposal is ever turned down, no message is unexpected.
   */
  lemma SameKeys(ttlA: nat, ttlB: nat, events: seq<Event>)
    requires IsRun(Start(ttlA, ttlB), events)
    ensures
      var w := Run(Start(ttlA, ttlB), events);
      var idsA, idsB := KeyIds(w.a.handed), KeyIds(w.b.handed);
      && Distinct(idsA) && Distinct(idsB)
      && (idsB == idsA || (|idsB| == |idsA| + 1 && idsB[..|idsA|] == idsA && w.alice.Asking? && PickAck in w.toAlice))
      && PickNack !in w.toAlice && !w.failed
  {
    RunSound(ttlA, ttlB, events);
  }

  /** In every run every pushed key is exactly one of handed out, stashed and purged, on either side. */
  lemma NoKeyLost(ttlA: nat, ttlB: nat, events: seq<Event>, id: nat)
    requires IsRun(Start(ttlA, ttlB), events)
    ensures
      var w := Run(Start(ttlA, ttlB), events);
      && OneOf(id in w.a.pushed, id in Ids(w.a.stash), id in w.a.purged, id in KeyIds(w.a.handed))
      && OneOf(id in w.b.pushed, id in Ids(w.b.stash), id in w.b.purged, id in KeyIds(w.b.handed))
  {
    var w := Run(Start(ttlA, ttlB), events);
    RunSound(ttlA, ttlB, events);
    hide Run, IsRun, Ids, KeyIds, Distinct, Control;
    assert id in Elements(Ids(w.a.stash)) <==> id in Ids(w.a.stash);
    assert id in Elements(Ids(w.b.stash)) <==> id in Ids(w.b.stash);
    assert id in Elements(KeyIds(w.a.handed)) <==> id in KeyIds(w.a.handed);
    assert id in Elements(KeyIds(w.b.handed)) <==> id in KeyIds(w.b.handed);
  }

  predicate OneOf(all: bool, x: bool, y: bool, z: bool) {
    (all <==> x || y || z) && !(x && y) && !(y && z) && !(x && z)
  }

  /** The protocol is never stuck: someone can start a cycle or has a message to read. */
  lemma NeverStuck(ttlA: nat, ttlB: nat, events: seq<Event>, now: int)
    requires IsRun(Start(ttlA, ttlB), events)
    ensures
      var w := Run(Start(ttlA, ttlB), events);
      Enabled(w, AliceStart(now)) || Enabled(w, BobStart(now)) || Enabled(w, AliceGetsList)
      || Enabled(w, AliceGetsAnswer) || Enabled(w, BobGetsProposal)
  {
    hide Run, IsRun, Conserved, Ids, KeyIds;
    RunSound(ttlA, ttlB, events);
  }

  /** Alice proposes a key exactly when the two stashes share one, and then the first of hers that is shared. */
  lemma ProposesShared(ttlA: nat, ttlB: nat, events: seq<Event>)
    requires IsRun(Start(ttlA, ttlB), events)
    requires Enabled(Run(Start(ttlA, ttlB), events), AliceGetsList)
    ensures
      var w := Run(Start(ttlA, ttlB), events);
      var next := Next(w, AliceGetsList);
      && (next.alice.Asking? || forall k :: k in w.a.stash && !k.key.IsNull() ==> k.key.id !in Ids(w.b.stash))
      && (next.alice.Asking? ==>
            exists i :: 0 <= i < |w.a.stash| && w.a.stash[i].key == next.alice.key
              && next.alice.key.id in Ids(w.b.stash)
              && forall j :: 0 <= j < i ==> w.a.stash[j].key.id !in Ids(w.b.stash))
  {
    RunSound(ttlA, ttlB, events);
    var w := Run(Start(ttlA, ttlB), events);
    var i := Choice(w.a.stash, Ids(w.b.stash));
    if i < |w.a.stash| { assert w.a.stash[i] in w.a.stash; }
  }

  /** The first key of the list that is also in the list of the peer. */
  ghost predicate FirstShared(s: seq<StashedKey>, peer: seq<nat>, i: nat) {
    i < |s| && s[i].key.id in peer && forall j :: 0 <= j < i ==> s[j].key.id !in peer
  }

  /**
   * Both hand out their first key of the id of the first key of Alice's that Bob has too; when there is none, or it
   * is the null key, nothing is handed out and both stashes stay.
   */
  ghost predicate CycleResult(sa: seq<StashedKey>, sb: seq<StashedKey>, ra: Outcome, rb: Outcome,
                              a: seq<StashedKey>, b: seq<StashedKey>) {
    if exists i: nat :: FirstShared(sa, Ids(sb), i) && !sa[i].key.IsNull() then
      && ra.Picked? && rb.Picked? && ra.key.id == rb.key.id
      && (exists i: nat :: FirstShared(sa, Ids(sb), i) && sa[i].key == ra.key && a == sa[..i] + sa[i + 1..])
      && (exists j: nat :: FirstShared(sb, [ra.key.id], j) && sb[j].key == rb.key && b == sb[..j] + sb[j + 1..])
    else
      ra.Nothing? && rb.Nothing? && a == sa && b == sb
  }

  /** One cycle of the two stashes themselves, from what the purge leaves. */
  method Cycle(alice: KeyStash, bob: KeyStash, nowA: int, nowB: int) returns (ra: Outcome, rb: Outcome)
    requires alice != bob
    modifies alice, bob
    ensures CycleResult(PurgedAt(old(alice.stash), nowA, old(alice.ttl)), PurgedAt(old(bob.stash), nowB, old(bob.ttl)),
                        ra, rb, alice.stash, bob.stash)
  {
    hide RemovedAll, Expired, Removed, CycleResult;
    alice.Purge(nowA);
    bob.Purge(nowB);
    ghost var sa, sb := alice.stash, bob.stash;
    var list := bob.Send();
    var ok := alice.Recv(list);
    var key, proposal := alice.ProposePick();
    ghost var i := Choice(alice.stash, alice.peer);
    if i < |alice.stash| { assert Ids(alice.stash)[i] == alice.stash[i].key.id; }
    var answer;
    rb, answer := bob.AnswerPick(proposal);
    ra := Nothing;
    if proposal.Pick? {
      ra := alice.ConcludePick(key, answer[0]);
      PickedFirst(sa, sb, i, ra, rb);
    } else {
      NonePicked(sa, sb, i);
    }
  }

  lemma OneFirst(s: seq<StashedKey>, peer: seq<nat>, i: nat)
    requires i == Choice(s, peer)
    ensures forall j :: FirstShared(s, peer, j) ==> j == i
    ensures i < |s| ==> FirstShared(s, peer, i)
  {}

  lemma NonePicked(sa: seq<StashedKey>, sb: seq<StashedKey>, i: nat)
    requires i == Choice(sa, Ids(sb)) && (i < |sa| ==> sa[i].key.IsNull())
    ensures CycleResult(sa, sb, Nothing, Nothing, sa, sb)
  {
    OneFirst(sa, Ids(sb), i);
  }

  lemma FindIsFirst(s: seq<StashedKey>, id: nat)
    requires id in Ids(s)
    ensures FirstShared(s, [id], Find(s, id))
  {}

  lemma ChoiceIsFound(sa: seq<StashedKey>, ids: seq<nat>, i: nat)
    requires i == Choice(sa, ids) && i < |sa|
    ensures Find(sa, sa[i].key.id) == i
  {
    assert Ids(sa)[i] == sa[i].key.id;
    var f := Find(sa, sa[i].key.id);
    assert sa[f].key.id in ids;
  }

  lemma PickedFirst(sa: seq<StashedKey>, sb: seq<StashedKey>, i: nat, ra: Outcome, rb: Outcome)
    requires i == Choice(sa, Ids(sb)) && i < |sa| && !sa[i].key.IsNull()
    requires ra == Picked(sa[i].key) && rb == Picked(sb[Find(sb, sa[i].key.id)].key)
    ensures CycleResult(sa, sb, ra, rb, Removed(sa, sa[i].key.id), Removed(sb, sa[i].key.id))
  {
    hide Choice, Find;
    OneFirst(sa, Ids(sb), i);
    ChoiceIsFound(sa, Ids(sb), i);
    FindIsFirst(sb, sa[i].key.id);
    hide FirstShared;
    assert FirstShared(sa, Ids(sb), i) && FirstShared(sb, [ra.key.id], Find(sb, sa[i].key.id));
  }

  function PurgedAt(s: seq<StashedKey>, now: int, ttl: nat): seq<StashedKey> {
    RemovedAll(s, Expired(s, now, ttl))
  }
}
