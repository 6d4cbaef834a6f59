/** The stash of keys that wait until the peer has them too, and its messages. */
module Stash {
  /** A key; the one with no id and no data is the null key. */
  datatype Key = Key(id: nat, data: seq<int>) {
    predicate IsNull() {
      id == 0 && data == []
    }
  }

  const NULL_KEY := Key(0, [])

  datatype StashedKey = StashedKey(key: Key, stashed: int)

  datatype Message =
    | List(ids: seq<nat>)
    | Pick(id: nat)
    | NoPick
    | PickAck
    | PickNack

  datatype Outcome = Picked(key: Key) | Nothing | ProtocolError

  function Ids(s: seq<StashedKey>): (r: seq<nat>)
    ensures |r| == |s| && forall i :: 0 <= i < |s| ==> r[i] == s[i].key.id
  {
    seq(|s|, i requires 0 <= i < |s| => s[i].key.id)
  }

  /** The place of the first key with the given id, or the length of the list. */
  function Find(s: seq<StashedKey>, id: nat): (i: nat)
    ensures i <= |s|
    ensures i < |s| <==> id in Ids(s)
    ensures i < |s| ==> s[i].key.id == id
    ensures forall j :: 0 <= j < i ==> s[j].key.id != id
  {
    if s == [] then 0
    else if s[0].key.id == id then assert Ids(s)[0] == id; 0
    else
      var i := Find(s[1..], id);
      assert Ids(s) == [s[0].key.id] + Ids(s[1..]);
      i + 1
  }

  /** The list without the first key of that id. */
  function Removed(s: seq<StashedKey>, id: nat): (r: seq<StashedKey>) {
    var i := Find(s, id);
    if i < |s| then s[..i] + s[i + 1..] else s
  }

  function RemovedAll(s: seq<StashedKey>, ids: seq<nat>): (r: seq<StashedKey>) {
    if ids == [] then s else Removed(RemovedAll(s, ids[..|ids| - 1]), ids[|ids| - 1])
  }

  /** The first own key that is also in the list of the peer, or the length of the own list. */
  function Choice(s: seq<StashedKey>, peer: seq<nat>): (i: nat)
    ensures i <= |s|
    ensures i < |s| ==> s[i].key.id in peer
    ensures forall j :: 0 <= j < i ==> s[j].key.id !in peer
  {
    if s == [] then 0 else if s[0].key.id in peer then 0 else Choice(s[1..], peer) + 1
  }

  function RemovedId(peer: seq<nat>, id: nat): (r: seq<nat>) {
    if peer == [] then [] else if peer[0] == id then peer[1..] else [peer[0]] + RemovedId(peer[1..], id)
  }

  /** The ids of the keys older than the time to live. */
  function Expired(s: seq<StashedKey>, now: int, ttl: nat): (ids: seq<nat>) {
    if s == [] then []
    else
      Expired(s[..|s| - 1], now, ttl) + if now - s[|s| - 1].stashed > ttl then [s[|s| - 1].key.id] else []
  }

  class KeyStash {
    var stash: seq<StashedKey>
    var peer: seq<nat>
    var ttl: nat

    constructor ()
      ensures stash == [] && peer == [] && ttl == 10
    {
      stash, peer, ttl := [], [], 10;
    }

    /** Look through the own keys for the first one that the peer has. */
    method Choose() returns (key: Key)
      ensures var i := Choice(stash, peer); key == if i < |stash| then stash[i].key else NULL_KEY
    {
      for i := 0 to |stash|
        invariant Choice(stash, peer) == i + Choice(stash[i..], peer)
      {
        for j := 0 to |peer|
          invariant stash[i].key.id !in peer[..j]
        {
          if stash[i].key.id == peer[j] {
            assert Choice(stash[i..], peer) == 0;
            return stash[i].key;
          }
        }
        assert peer[..|peer|] == peer;
        assert stash[i..][1..] == stash[i + 1..];
      }
      key := NULL_KEY;
    }

    method Push(key: Key, now: int)
      modifies this
      ensures stash == if key.IsNull() then old(stash) else old(stash) + [StashedKey(key, now)]
      ensures peer == old(peer) && ttl == old(ttl)
    {
      if key.IsNull() { return; }
      stash := stash + [StashedKey(key, now)];
    }

    method CollectExpired(now: int) returns (expired: seq<nat>)
      ensures expired == Expired(stash, now, ttl)
    {
      expired := [];
      for i := 0 to |stash|
        invariant expired == Expired(stash[..i], now, ttl)
      {
        assert stash[..i + 1][..i] == stash[..i];
        if now - stash[i].stashed > ttl { expired := expired + [stash[i].key.id]; }
      }
      assert stash[..|stash|] == stash;
    }

    /** Collect the expired ids first, then erase them one by one. */
    method Purge(now: int)
      modifies this
      ensures stash == RemovedAll(old(stash), Expired(old(stash), now, ttl))
      ensures peer == old(peer) && ttl == old(ttl)
    {
      hide Removed, Expired;
      var expired := CollectExpired(now);
      for i := 0 to |expired|
        invariant stash == RemovedAll(old(stash), expired[..i])
        invariant peer == old(peer) && ttl == old(ttl)
      {
        assert expired[..i + 1][..i] == expired[..i];
        stash := Removed(stash, expired[i]);
      }
      assert expired[..|expired|] == expired;
    }

    /** Remove a key from the own list and its id from the list of the peer. */
    method Remove(id: nat)
      modifies this
      ensures stash == Removed(old(stash), id) && peer == RemovedId(old(peer), id) && ttl == old(ttl)
    {
      var i := Find(stash, id);
      if i < |stash| { stash := stash[..i] + stash[i + 1..]; }
      peer := RemovedId(peer, id);
    }

    /** The list of the own keys, for the peer. */
    method Send() returns (message: Message)
      ensures message == List(Ids(stash))
    {
      message := List(Ids(stash));
    }

    /** Take over the list of the peer; any other message is a protocol error, and the old list is gone. */
    method Recv(message: Message) returns (ok: bool)
      modifies this
      ensures ok <==> message.List?
      ensures peer == (if ok then message.ids else []) && stash == old(stash) && ttl == old(ttl)
    {
      peer := [];
      ok := message.List?;
      if ok { peer := message.ids; }
    }

    /** Alice proposes her choice. */
    method ProposePick() returns (key: Key, message: Message)
      ensures var i := Choice(stash, peer); key == if i < |stash| then stash[i].key else NULL_KEY
      ensures message == if key.IsNull() then NoPick else Pick(key.id)
    {
      key := Choose();
      message := if key.IsNull() then NoPick else Pick(key.id);
    }

    /** Alice gets the answer to her proposal. */
    method ConcludePick(key: Key, answer: Message) returns (res: Outcome)
      modifies this
      ensures res == match answer case PickAck => Picked(key) case PickNack => Nothing case _ => ProtocolError
      ensures stash == (if answer.PickAck? then Removed(old(stash), key.id) else old(stash))
      ensures peer == (if answer.PickAck? then RemovedId(old(peer), key.id) else old(peer)) && ttl == old(ttl)
    {
      match answer
      case PickAck =>
        Remove(key.id);
        res := Picked(key);
      case PickNack => res := Nothing;
      case _ => res := ProtocolError;
    }

    /** Bob answers a proposal. */
    method AnswerPick(proposal: Message) returns (res: Outcome, answer: seq<Message>)
      modifies this
      ensures proposal.NoPick? ==> res == Nothing && answer == [] && stash == old(stash)
      ensures proposal.Pick? ==>
        var i := Find(old(stash), proposal.id);
        && res == (if i < |old(stash)| then Picked(old(stash)[i].key) else Nothing)
        && answer == [if i < |old(stash)| then PickAck else PickNack]
        && stash == Removed(old(stash), proposal.id)
      ensures !proposal.NoPick? && !proposal.Pick? ==> res == ProtocolError && answer == [] && stash == old(stash)
      ensures peer == (if answer == [PickAck] then RemovedId(old(peer), proposal.id) else old(peer)) && ttl == old(ttl)
    {
      match proposal
      case NoPick => res, answer := Nothing, [];
      case Pick(id) =>
        var i := Find(stash, id);
        if i < |stash| {
          res, answer := Picked(stash[i].key), [PickAck];
          Remove(id);
        } else {
          res, answer := Nothing, [PickNack];
        }
      case _ => res, answer := ProtocolError, [];
    }
  }
}
