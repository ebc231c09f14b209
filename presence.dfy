/**
 * The presence tracker (src/Presence.ts): one `PeerPresence` object per
 * observed user, keyed by the user's key text and stamped with the time
 * it was last seen. The clock is a parameter; the pubsub channel and the
 * JSON encoding are not modelled.
 */
module Presence {
  import opened Identity

  class PeerPresence {
    const id: PublicKey
    var lastSeen: int

    /** A peer starts out never seen: `lastSeen` is 0. */
    constructor(id: PublicKey)
      ensures this.id == id && lastSeen == 0
    {
      this.id := id;
      lastSeen := 0;
    }

    /** `setLastSeen`. */
    method SetLastSeen(t: int)
      modifies this`lastSeen
      ensures lastSeen == t
    {
      lastSeen := t;
    }
  }

  class PresenceManager {
    const id: PublicKey
    const netName: string
    var peerMap: map<string, PeerPresence>

    /** Every entry is stored under its own peer's key text. */
    ghost predicate Valid()
      reads this, peerMap.Values
    {
      forall k :: k in peerMap ==> peerMap[k].id.ToString() == k
    }

    /** When each known user was last seen. */
    ghost function Seen(): (seen: map<string, int>)
      reads this, peerMap.Values
      ensures seen.Keys == peerMap.Keys
    {
      map k | k in peerMap :: peerMap[k].lastSeen
    }

    constructor(netName: string, id: PublicKey)
      ensures Valid() && peerMap == map[]
      ensures this.id == id && this.netName == netName
    {
      this.id := id;
      this.netName := netName;
      peerMap := map[];
    }

    /** Entries under different keys are different objects. */
    lemma PeersDistinct(k1: string, k2: string)
      requires Valid() && k1 in peerMap && k2 in peerMap && k1 != k2
      ensures peerMap[k1] != peerMap[k2]
    {
    }

    /**
     * `handleObservation`: the first observation of a user adds one new
     * entry for it under its key text; every observation stamps that
     * entry with `now`. No other entry changes and none is replaced.
     */
    method HandleObservation(user: PublicKey, now: int)
      requires Valid()
      modifies this`peerMap, peerMap.Values
      ensures Valid()
      ensures peerMap.Keys == old(peerMap.Keys) + {user.ToString()}
      ensures forall k :: k in old(peerMap) ==> peerMap[k] == old(peerMap[k])
      ensures user.ToString() !in old(peerMap) ==>
        fresh(peerMap[user.ToString()]) && peerMap[user.ToString()].id == user
      ensures Seen() == old(Seen())[user.ToString() := now]
    {
      var key := user.ToString();
      if key !in peerMap {
        var peer := new PeerPresence(user);
        peerMap := peerMap[key := peer];
      }
      var entry := peerMap[key];
      forall k | k in peerMap && k != key
        ensures peerMap[k] != entry
      {
        PeersDistinct(k, key);
      }
      entry.lastSeen := now;
    }

    /** Looking up distinct keys covering the map lists every entry once. */
    lemma PeersListed(keys: seq<string>, ret: seq<PeerPresence>)
      requires Valid() && |keys| == |ret|
      requires forall i :: 0 <= i < |keys| ==> keys[i] in peerMap && ret[i] == peerMap[keys[i]]
      requires forall k :: k in peerMap ==> k in keys
      requires forall i, j :: 0 <= i < j < |keys| ==> keys[i] != keys[j]
      ensures forall p :: p in ret <==> p in peerMap.Values
      ensures forall i, j :: 0 <= i < j < |ret| ==> ret[i] != ret[j]
    {
      forall i, j | 0 <= i < j < |ret|
        ensures ret[i] != ret[j]
      {
        PeersDistinct(keys[i], keys[j]);
      }
      forall p | p in peerMap.Values
        ensures p in ret
      {
        var k :| k in peerMap && peerMap[k] == p;
        var i :| 0 <= i < |keys| && keys[i] == k;
        assert ret[i] == p;
      }
    }

    /** `getPeers`: every stored entry exactly once. */
    method GetPeers() returns (ret: seq<PeerPresence>)
      requires Valid()
      ensures |ret| == |peerMap|
      ensures forall p :: p in ret <==> p in peerMap.Values
      ensures forall i, j :: 0 <= i < j < |ret| ==> ret[i] != ret[j]
    {
      ret := [];
      var todo := peerMap.Keys;
      ghost var keys: seq<string> := [];
      while todo != {}
        invariant todo <= peerMap.Keys
        invariant |keys| == |ret| && |keys| + |todo| == |peerMap.Keys|
        invariant forall i :: 0 <= i < |keys| ==> keys[i] in peerMap && keys[i] !in todo && ret[i] == peerMap[keys[i]]
        invariant forall k :: k in peerMap && k !in todo ==> k in keys
        invariant forall i, j :: 0 <= i < j < |keys| ==> keys[i] != keys[j]
        decreases |todo|
      {
        var k :| k in todo;
        ret := ret + [peerMap[k]];
        keys := keys + [k];
        todo := todo - {k};
      }
      PeersListed(keys, ret);
    }
  }
}
