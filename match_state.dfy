/**
 * The network picture of one advertised match (`MatchState`,
 * src/Matcher.ts:152-188) and the changes the state manager's message
 * handlers make to the map of them (src/Matcher.ts:198-268).
 */
module MatchStates {
  import opened Identity
  import opened MatchMessages

  /** Adverts not refreshed for longer than this many milliseconds expire. */
  const ADVERTISE_TIMEOUT := 15000

  /** A claim: the claiming user and the counter they sent. */
  type ClaimEntry = (PublicKey, int)

  datatype MatchState = MatchState(
    advertiser: PublicKey,
    advertiserCounter: int,
    matchName: string,
    matchId: string,
    lastSeen: int,
    claimsSeen: seq<ClaimEntry>,
    acksSeen: seq<PublicKey>)

  /** The `MatchState` constructor: identifier derived, no claims, no acks. */
  function NewMatchState(advertiser: PublicKey, counter: int, matchName: string, lastSeen: int): (s: MatchState)
    ensures s.matchId == GetMatchID(s.advertiser, s.matchName)
    ensures s.advertiser == advertiser && s.matchName == matchName
    ensures s.advertiserCounter == counter && s.lastSeen == lastSeen
    ensures s.claimsSeen == [] && s.acksSeen == []
  {
    MatchState(advertiser, counter, matchName, GetMatchID(advertiser, matchName), lastSeen, [], [])
  }

  /** The users of a claim list, in claim order. */
  function Claimants(claims: seq<ClaimEntry>): (users: seq<PublicKey>)
    ensures |users| == |claims|
    ensures forall i :: 0 <= i < |claims| ==> users[i] == claims[i].0
  {
    if claims == [] then [] else [claims[0].0] + Claimants(claims[1..])
  }

  predicate Distinct<T(==)>(xs: seq<T>)
  {
    forall i, j :: 0 <= i < j < |xs| ==> xs[i] != xs[j]
  }

  /**
   * The counter `getCounter` reports for a user found in a claim list: the
   * counter of the user's first claim, or -1 when the user made none.
   */
  function ClaimCounter(claims: seq<ClaimEntry>, id: PublicKey): (r: int)
    ensures id !in Claimants(claims) ==> r == -1
    ensures forall i :: 0 <= i < |claims| && claims[i].0 == id && id !in Claimants(claims[..i])
                        ==> r == claims[i].1
  {
    if claims == [] then -1
    else if claims[0].0 == id then claims[0].1
    else
      var r := ClaimCounter(claims[1..], id);
      assert forall i :: 1 <= i <= |claims| ==> Claimants(claims[..i]) == [claims[0].0] + Claimants(claims[1..][..i-1]) by {
        forall i | 1 <= i <= |claims|
          ensures Claimants(claims[..i]) == [claims[0].0] + Claimants(claims[1..][..i-1])
        {
          assert claims[..i][1..] == claims[1..][..i-1];
        }
      }
      r
  }

  /** `getCounter`: the advertiser's counter, else the user's first claim counter, else -1. */
  function CounterOf(s: MatchState, id: PublicKey): (r: int)
    ensures id == s.advertiser ==> r == s.advertiserCounter
    ensures id != s.advertiser ==> r == ClaimCounter(s.claimsSeen, id)
  {
    if s.advertiser == id then s.advertiserCounter else ClaimCounter(s.claimsSeen, id)
  }

  /** `getCounter` as written: a scan of the claims in order. */
  method GetCounter(s: MatchState, id: PublicKey) returns (r: int)
    ensures r == CounterOf(s, id)
  {
    if s.advertiser == id {
      return s.advertiserCounter;
    }
    var i := 0;
    while i < |s.claimsSeen|
      invariant 0 <= i <= |s.claimsSeen|
      invariant id !in Claimants(s.claimsSeen[..i])
    {
      if s.claimsSeen[i].0 == id {
        return s.claimsSeen[i].1;
      }
      assert s.claimsSeen[..i+1] == s.claimsSeen[..i] + [s.claimsSeen[i]];
      ClaimantsAppend(s.claimsSeen[..i], s.claimsSeen[i]);
      i := i + 1;
    }
    assert s.claimsSeen[..i] == s.claimsSeen;
    return -1;
  }

  lemma ClaimantsAppend(claims: seq<ClaimEntry>, c: ClaimEntry)
    ensures Claimants(claims + [c]) == Claimants(claims) + [c.0]
  {
  }

  /** The state manager's map, keyed by match identifier. */
  type MatchMap = map<string, MatchState>

  /**
   * What the handlers keep true of every entry: it is stored under its own
   * identifier, that identifier is derived from advertiser and name, and no
   * user is recorded twice as claimant or as acknowledged.
   */
  predicate EntryOk(key: string, s: MatchState)
  {
    && s.matchId == key
    && s.matchId == GetMatchID(s.advertiser, s.matchName)
    && Distinct(Claimants(s.claimsSeen))
    && Distinct(s.acksSeen)
  }

  predicate MapInv(m: MatchMap)
  {
    forall k :: k in m ==> EntryOk(k, m[k])
  }

  /**
   * `handleAdvertiseMessage`'s change to the map: a known advert only has
   * `lastSeen` refreshed (a new counter is not taken); an unknown one is
   * added with no claims and no acks. No other entry changes.
   */
  function Advertised(m: MatchMap, advertiser: PublicKey, matchName: string, counter: int, now: int): (r: MatchMap)
    ensures r.Keys == m.Keys + {GetMatchID(advertiser, matchName)}
    ensures forall k :: k in m && k != GetMatchID(advertiser, matchName) ==> r[k] == m[k]
    ensures var k := GetMatchID(advertiser, matchName);
            && r[k].lastSeen == now
            && (k in m ==> r[k].claimsSeen == m[k].claimsSeen && r[k].acksSeen == m[k].acksSeen
                           && r[k].advertiserCounter == m[k].advertiserCounter
                           && r[k].advertiser == m[k].advertiser && r[k].matchId == m[k].matchId)
            && (k !in m ==> r[k].claimsSeen == [] && r[k].acksSeen == [] && r[k].advertiserCounter == counter
                            && r[k].advertiser == advertiser && r[k].matchName == matchName)
    ensures MapInv(m) ==> MapInv(r)
  {
    var k := GetMatchID(advertiser, matchName);
    if k in m then m[k := m[k].(lastSeen := now)]
    else m[k := NewMatchState(advertiser, counter, matchName, now)]
  }

  /**
   * `handleClaimMessage`'s change to the map: a claim for a known advert
   * from a user who has not claimed it yet is appended; otherwise nothing
   * changes. The first claimant never changes once there is one.
   */
  function Claimed(m: MatchMap, matchId: string, user: PublicKey, counter: int): (r: MatchMap)
    ensures r.Keys == m.Keys
    ensures forall k :: k in m && k != matchId ==> r[k] == m[k]
    ensures matchId in m && user in Claimants(m[matchId].claimsSeen) ==> r == m
    ensures matchId in m && user !in Claimants(m[matchId].claimsSeen) ==>
              && r[matchId].claimsSeen == m[matchId].claimsSeen + [(user, counter)]
              && Claimants(r[matchId].claimsSeen) == Claimants(m[matchId].claimsSeen) + [user]
              && r[matchId].acksSeen == m[matchId].acksSeen
              && r[matchId].matchId == m[matchId].matchId
              && r[matchId].matchName == m[matchId].matchName
              && r[matchId].advertiser == m[matchId].advertiser
              && r[matchId].advertiserCounter == m[matchId].advertiserCounter
              && r[matchId].lastSeen == m[matchId].lastSeen
    ensures matchId in m && |m[matchId].claimsSeen| > 0 ==> r[matchId].claimsSeen[0] == m[matchId].claimsSeen[0]
    ensures MapInv(m) ==> MapInv(r)
  {
    if matchId in m && user !in Claimants(m[matchId].claimsSeen) then
      var s := m[matchId];
      ClaimantsAppend(s.claimsSeen, (user, counter));
      m[matchId := s.(claimsSeen := s.claimsSeen + [(user, counter)])]
    else m
  }

  /**
   * The push `handleAckMessage` makes before it notifies: the user is
   * appended to the acks of a known advert unless already there.
   */
  function Acked(m: MatchMap, matchId: string, user: PublicKey): (r: MatchMap)
    ensures r.Keys == m.Keys
    ensures forall k :: k in m && k != matchId ==> r[k] == m[k]
    ensures matchId in m && user in m[matchId].acksSeen ==> r == m
    ensures matchId in m && user !in m[matchId].acksSeen ==>
              && r[matchId].acksSeen == m[matchId].acksSeen + [user]
              && r[matchId].claimsSeen == m[matchId].claimsSeen
              && r[matchId].matchId == m[matchId].matchId
              && r[matchId].matchName == m[matchId].matchName
              && r[matchId].advertiser == m[matchId].advertiser
              && r[matchId].advertiserCounter == m[matchId].advertiserCounter
              && r[matchId].lastSeen == m[matchId].lastSeen
    ensures MapInv(m) ==> MapInv(r)
  {
    if matchId in m && user !in m[matchId].acksSeen then
      var s := m[matchId];
      m[matchId := s.(acksSeen := s.acksSeen + [user])]
    else m
  }

  /** Whether `checkTimeouts` at time `now` drops the entry (strictly older than the timeout). */
  predicate TimedOut(s: MatchState, now: int)
  {
    now - s.lastSeen > ADVERTISE_TIMEOUT
  }

  /**
   * `checkTimeouts`' result: exactly the entries seen at most
   * ADVERTISE_TIMEOUT milliseconds ago remain, unchanged.
   */
  function Expired(m: MatchMap, now: int): (r: MatchMap)
    ensures forall k :: k in r <==> k in m && now - m[k].lastSeen <= ADVERTISE_TIMEOUT
    ensures forall k :: k in r ==> r[k] == m[k]
    ensures MapInv(m) ==> MapInv(r)
  {
    map k | k in m && !TimedOut(m[k], now) :: m[k]
  }
}
