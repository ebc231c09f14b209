/**
 * The matchmaking objects of one client (src/Matcher.ts:190-581): the state
 * manager that mirrors the adverts seen on the network, the agent that runs
 * the protocol for the local user, and the manager that ties them together
 * and loops every published message back to the local state manager.
 *
 * Every method is proved to change the client's state exactly as the
 * matching function of match_spec.dfy says. Published messages, callback
 * calls and listener calls are recorded in ghost logs.
 */
module Matcher {
  import opened Wrappers
  import opened Identity
  import opened MatchMessages
  import opened MatchStates
  import opened MatchSpec

  /** The scan of `handleClaimMessage` for an earlier claim by `user`. */
  method HasClaimed(claims: seq<ClaimEntry>, user: PublicKey) returns (found: bool)
    ensures found <==> user in Claimants(claims)
  {
    var c := 0;
    while c < |claims|
      invariant 0 <= c <= |claims|
      invariant user !in Claimants(claims[..c])
    {
      if claims[c].0 == user {
        return true;
      }
      assert claims[..c+1] == claims[..c] + [claims[c]];
      ClaimantsAppend(claims[..c], claims[c]);
      c := c + 1;
    }
    assert claims[..c] == claims;
    return false;
  }

  /** The scan of `handleAckMessage` for an earlier ack of `user`. */
  method HasAcked(acks: seq<PublicKey>, user: PublicKey) returns (found: bool)
    ensures found <==> user in acks
  {
    var a := 0;
    while a < |acks|
      invariant 0 <= a <= |acks|
      invariant user !in acks[..a]
    {
      if acks[a] == user {
        return true;
      }
      assert acks[..a+1] == acks[..a] + [acks[a]];
      a := a + 1;
    }
    assert acks[..a] == acks;
    return false;
  }

  class MatchStateManager {
    /** The manager whose agent is this state manager's first listener. */
    const manager: MatchManager
    var matchMap: MatchMap
    /** Listeners added with `addListener`, after the agent's. */
    var observers: seq<ListenerId>
    ghost var notified: seq<Notification>

    constructor (manager: MatchManager)
      ensures this.manager == manager
      ensures matchMap == map[] && observers == [] && notified == []
    {
      this.manager := manager;
      matchMap := map[];
      observers := [];
      notified := [];
    }

    method HandleAdvertiseMessage(msg: Message, now: int) returns (ghost pick: Option<string>)
      requires msg.Advertise?
      requires manager.Valid() && manager.matchStateManager == this
      modifies manager`sent, this, manager.matchAgent
      decreases Restartable(manager.matchAgent.View()), 0,
                MessagePotential(matchMap, msg, now), 1
      ensures manager.Valid()
      ensures manager.View() == AdvertiseHandled(old(manager.View()), msg.advertiser, msg.matchName, msg.counter, now, pick)
      ensures AdvertisePickOk(old(manager.View()), msg.advertiser, msg.matchName, msg.counter, now, pick)
    {
      var matchId := GetMatchID(msg.advertiser, msg.matchName);
      if matchId in matchMap {
        matchMap := matchMap[matchId := matchMap[matchId].(lastSeen := now)];
      } else {
        matchMap := matchMap[matchId := NewMatchState(msg.advertiser, msg.counter, msg.matchName, now)];
      }
      pick := RaiseUpdateEvent(matchId, now);
    }

    method HandleUnadvertiseMessage(msg: Message)
      requires msg.Unadvertise?
      modifies this`matchMap
      ensures matchMap == old(matchMap) - {msg.matchId}
    {
      if msg.matchId in matchMap {
        matchMap := matchMap - {msg.matchId};
      }
    }

    method HandleClaimMessage(msg: Message, now: int) returns (ghost pick: Option<string>)
      requires msg.Claim?
      requires manager.Valid() && manager.matchStateManager == this
      modifies manager`sent, this, manager.matchAgent
      decreases Restartable(manager.matchAgent.View()), 0,
                MessagePotential(matchMap, msg, now), 1
      ensures manager.Valid()
      ensures manager.View() == ClaimHandled(old(manager.View()), msg.matchId, msg.user, msg.counter, now, pick)
      ensures ClaimPickOk(old(manager.View()), msg.matchId, msg.user, msg.counter, pick)
    {
      pick := None;
      if msg.matchId in matchMap {
        var claims := matchMap[msg.matchId].claimsSeen;
        var claimed := HasClaimed(claims, msg.user);
        if claimed {
          return;
        }
        matchMap := matchMap[msg.matchId := matchMap[msg.matchId].(claimsSeen := claims + [(msg.user, msg.counter)])];
        pick := RaiseUpdateEvent(msg.matchId, now);
      }
    }

    method HandleAckMessage(msg: Message, now: int) returns (ghost pick: Option<string>)
      requires msg.Ack?
      requires manager.Valid() && manager.matchStateManager == this
      modifies manager`sent, this, manager.matchAgent
      decreases Restartable(manager.matchAgent.View()), 0,
                MessagePotential(matchMap, msg, now), 1
      ensures manager.Valid()
      ensures manager.View() == AckHandled(old(manager.View()), msg.matchId, msg.user, now, pick)
      ensures AckPickOk(old(manager.View()), msg.matchId, msg.user, pick)
    {
      pick := None;
      if msg.matchId in matchMap {
        var entry := matchMap[msg.matchId];
        var acked := HasAcked(entry.acksSeen, msg.user);
        if acked {
          return;
        }
        matchMap := matchMap[msg.matchId := entry.(acksSeen := entry.acksSeen + [msg.user])];
        pick := RaiseUpdateEvent(msg.matchId, now);
        Remove(msg.matchId);
      }
    }

    method Remove(matchId: string)
      modifies this`matchMap
      ensures matchMap == old(matchMap) - {matchId}
    {
      matchMap := matchMap - {matchId};
    }

    /** Tells the agent, then every other listener, about the current entry for `matchId`. */
    method RaiseUpdateEvent(matchId: string, now: int) returns (ghost pick: Option<string>)
      requires manager.Valid() && manager.matchStateManager == this
      requires matchId in matchMap
      modifies manager`sent, this, manager.matchAgent
      decreases Restartable(manager.matchAgent.View()), 0, NotifyPotential(matchMap, matchId), 6
      ensures manager.Valid()
      ensures manager.View() == Raised(old(manager.View()), matchId, now, pick)
      ensures RaisePickOk(old(manager.View()), matchId, pick)
    {
      pick := manager.matchAgent.HandleMatchStateUpdate(matchMap[matchId], now);
      var current := if matchId in matchMap then Some(matchMap[matchId]) else None;
      var listeners := observers;
      ghost var calls: seq<Notification> := [];
      var l := 0;
      while l < |listeners|
        invariant 0 <= l <= |listeners|
        invariant calls == seq(l, i requires 0 <= i < l => Notification(listeners[i], current))
      {
        calls := calls + [Notification(listeners[l], current)];
        l := l + 1;
      }
      notified := notified + calls;
    }

    /** `checkTimeouts`: drops every advert not refreshed within ADVERTISE_TIMEOUT of `now`. */
    method CheckTimeouts(now: int)
      modifies this`matchMap
      ensures matchMap == Expired(old(matchMap), now)
    {
      var keys := matchMap.Keys;
      while keys != {}
        invariant keys <= old(matchMap).Keys
        invariant matchMap.Keys == set k | k in old(matchMap) && (k in keys || !TimedOut(old(matchMap)[k], now))
        invariant forall k :: k in matchMap ==> matchMap[k] == old(matchMap)[k]
        decreases keys
      {
        var k :| k in keys;
        if TimedOut(matchMap[k], now) {
          matchMap := matchMap - {k};
        }
        keys := keys - {k};
      }
    }

    method AddListener(listener: ListenerId)
      modifies this`observers
      ensures observers == old(observers) + [listener]
    {
      observers := observers + [listener];
    }
  }

  class MatchAgent {
    const manager: MatchManager
    const id: PublicKey
    var state: AgentState
    var counter: int
    var lastActionStart: int
    var targetMatch: Option<string>
    var matchId: Option<string>
    var matchCallback: Option<CallbackId>
    /** Every call of a match callback, in order. */
    ghost var results: seq<Delivery>

    constructor (manager: MatchManager, id: PublicKey, counter: int)
      ensures this.manager == manager
      ensures View() == AgentView(id, Idle, counter, 0, None, None, None) && results == []
    {
      this.manager := manager;
      this.id := id;
      this.counter := counter;
      state := Idle;
      lastActionStart := 0;
      targetMatch := None;
      matchId := None;
      matchCallback := None;
      results := [];
    }

    function View(): AgentView
      reads this
    {
      AgentView(id, state, counter, lastActionStart, targetMatch, matchId, matchCallback)
    }

    method ClearState()
      modifies this`state, this`matchId, this`targetMatch, this`matchCallback
      ensures View() == Cleared(old(View()))
    {
      state := Idle;
      matchId := None;
      targetMatch := None;
      matchCallback := None;
    }

    method MatchCallback(result: MatchResult)
      modifies this`results
      ensures results == old(results) + Fired(matchCallback, result)
    {
      if matchCallback.Some? {
        results := results + [Delivery(matchCallback.value, result)];
      }
    }

    method RestartMatch(now: int) returns (ghost pick: Option<string>)
      requires manager.Valid() && manager.matchAgent == this
      modifies manager`sent, manager.matchStateManager, this
      decreases 0, 3, 0, 0
      ensures manager.Valid()
      ensures manager.View() == Restarted(old(manager.View()), now, pick)
      ensures RestartPickOk(old(manager.View()), pick)
    {
      pick := None;
      if state == Idle || !Truthy(targetMatch) || matchCallback.None? {
        return;
      }
      state := Idle;
      var _, p := StartMatch(targetMatch.value, counter, matchCallback.value, now);
      pick := p;
    }

    method StartMatch(target: string, counter: int, callback: CallbackId, now: int) returns (started: bool, ghost pick: Option<string>)
      requires manager.Valid() && manager.matchAgent == this
      modifies manager`sent, manager.matchStateManager, this
      decreases 0, 2, 0, 0
      ensures manager.Valid()
      ensures started <==> old(state) == Idle
      ensures !started ==> manager.View() == old(manager.View())
      ensures started ==> StartPickOk(old(manager.matchStateManager.matchMap), id, target, pick)
      ensures started ==> manager.View() == Started(old(manager.View()), target, counter, callback, now, pick)
    {
      pick := None;
      if state != Idle {
        return false, pick;
      }
      this.counter := counter;
      targetMatch := Some(target);
      matchCallback := Some(callback);
      matchId := None;
      assert manager.View() == Prepared(old(manager.View()), target, counter, callback);
      var items := manager.matchStateManager.matchMap;
      var candidates := set k | k in items && Eligible(items, k, id, target);
      if candidates != {} {
        var k :| k in candidates;
        pick := Some(k);
        JoinAdvert(k, now);
        return true, pick;
      }
      assert forall k :: k in items ==> !Eligible(items, k, id, target) by {
        forall k | k in items
          ensures !Eligible(items, k, id, target)
        {
          assert k !in candidates;
        }
      }
      HostMatch(now);
      return true, pick;
    }

    /** The joining half of `startMatch`: claim advert `k`, then remember it. */
    method JoinAdvert(k: string, now: int)
      requires manager.Valid() && manager.matchAgent == this && matchId == None
      modifies manager`sent, manager.matchStateManager, this
      decreases 0, 1, 0, 0
      ensures manager.Valid()
      ensures manager.View() == Joined(old(manager.View()), k, now)
    {
      state := JoiningWaitingAck;
      lastActionStart := now;
      ghost var before := manager.View().(sent := manager.sent + [Claim(k, id, counter)]);
      ghost var pick := manager.Send(Claim(k, id, counter), now);
      ClaimWhileUnset(before, k, id, counter, now, pick);
      matchId := Some(k);
    }

    /** The hosting half of `startMatch`: adopt the own match identifier and advertise it. */
    method HostMatch(now: int)
      requires manager.Valid() && manager.matchAgent == this && targetMatch.Some?
      modifies manager`sent, manager.matchStateManager, this
      decreases 0, 1, 0, 0
      ensures manager.Valid()
      ensures manager.View() == Hosted(old(manager.View()), now)
    {
      matchId := Some(GetMatchID(id, targetMatch.value));
      state := ServingWaitingClaims;
      lastActionStart := now;
      ghost var _ := manager.Send(Advertise(id, targetMatch.value, counter), now);
    }

    method StopMatch()
      requires manager.Valid() && manager.matchAgent == this
      modifies manager`sent, manager.matchStateManager, this
      ensures manager.Valid()
      ensures manager.View() == Stopped(old(manager.View()))
    {
      if state == Idle {
      } else if state == ServingWaitingClaims {
        if Truthy(matchId) {
          ghost var _ := manager.Send(Unadvertise(matchId.value), 0);
        }
        MatchCallback(MatchResult(None));
        ClearState();
      } else {
        MatchCallback(MatchResult(None));
        ClearState();
      }
    }

    method HandleMatchStateUpdate(s: MatchState, now: int) returns (ghost pick: Option<string>)
      requires manager.Valid() && manager.matchAgent == this
      requires s.matchId in manager.matchStateManager.matchMap && manager.matchStateManager.matchMap[s.matchId] == s
      modifies manager`sent, manager.matchStateManager, this
      decreases Restartable(View()), 0, ReactPotential(manager.matchStateManager.matchMap, s), 5
      ensures manager.Valid()
      ensures manager.View() == Reacted(old(manager.View()), s, now, pick)
      ensures ReactPickOk(old(manager.View()), s, pick)
    {
      pick := None;
      if matchId != Some(s.matchId) {
        return;
      }
      if state == ServingWaitingClaims {
        if |s.claimsSeen| != 0 {
          AcceptClaim(s, now);
        }
      } else if state == JoiningWaitingAck {
        if |s.acksSeen| != 0 {
          if id == s.acksSeen[0] {
            manager.matchStateManager.Remove(s.matchId);
            MatchCallback(MatchResult(Some(s)));
            ClearState();
          } else {
            pick := RestartMatch(now);
          }
        }
      }
    }

    /** A host's answer to a claim: ack the first claimant, drop the advert, report the match. */
    method AcceptClaim(s: MatchState, now: int)
      requires manager.Valid() && manager.matchAgent == this
      requires s.matchId in manager.matchStateManager.matchMap && manager.matchStateManager.matchMap[s.matchId] == s
      requires state == ServingWaitingClaims && matchId == Some(s.matchId) && |s.claimsSeen| > 0
      modifies manager`sent, manager.matchStateManager, this
      decreases Restartable(View()), 0, ReactPotential(manager.matchStateManager.matchMap, s), 4
      ensures manager.Valid()
      ensures manager.View() == ServeAccepted(old(manager.View()), s)
    {
      ghost var v := manager.View();
      var u := s.claimsSeen[0].0;
      ghost var p := manager.Send(Ack(s.matchId, u), now);
      AckLoopback(v, s, now, p);
      ghost var v1 := manager.View();
      manager.matchStateManager.Remove(s.matchId);
      assert manager.View() == v1.(matchMap := v1.matchMap - {s.matchId});
      MatchCallback(MatchResult(Some(s)));
      assert manager.View() == v1.(matchMap := v1.matchMap - {s.matchId},
                                   results := v1.results + Fired(v1.agent.matchCallback, MatchResult(Some(s))));
      ClearState();
    }

    method Poll(now: int) returns (ghost pick: Option<string>)
      requires manager.Valid() && manager.matchAgent == this
      modifies manager`sent, manager.matchStateManager, this
      ensures manager.Valid()
      ensures manager.View() == Polled(old(manager.View()), now, pick)
      ensures PollPickOk(old(manager.View()), now, pick)
    {
      pick := None;
      var mirror := manager.matchStateManager.matchMap;
      if state == ServingWaitingClaims {
        if now - lastActionStart > SERVING_REBROADCAST_TIMEOUT {
          pick := RestartMatch(now);
        }
      } else if state == JoiningWaitingAck {
        if Truthy(matchId) && matchId.value !in mirror {
          pick := RestartMatch(now);
        } else if Truthy(matchId) && |mirror[matchId.value].acksSeen| > 0 {
          if mirror[matchId.value].acksSeen[0] != id {
            pick := RestartMatch(now);
          }
        } else if now - lastActionStart > CLAIM_ACK_TIMEOUT {
          pick := RestartMatch(now);
        }
      }
    }
  }

  class MatchManager {
    var matchStateManager: MatchStateManager?
    var matchAgent: MatchAgent?
    /** Every message published, in order. */
    ghost var sent: seq<Message>

    ghost predicate Valid()
      reads this, matchStateManager, matchAgent
    {
      && matchStateManager != null && matchAgent != null
      && matchStateManager.manager == this && matchAgent.manager == this
      && MapInv(matchStateManager.matchMap)
    }

    ghost function View(): NodeView
      requires Valid()
      reads this, matchStateManager, matchAgent
    {
      NodeView(matchStateManager.matchMap, matchStateManager.observers, matchStateManager.notified,
               matchAgent.View(), sent, matchAgent.results)
    }

    /** A fresh client: no adverts known, agent idle, the agent as the state manager's only listener. */
    constructor (id: PublicKey)
      ensures Valid() && fresh(matchStateManager) && fresh(matchAgent)
      ensures View() == NodeView(map[], [], [], AgentView(id, Idle, 0, 0, None, None, None), [], [])
    {
      sent := [];
      new;
      matchAgent := new MatchAgent(this, id, 0);
      matchStateManager := new MatchStateManager(this);
    }

    /** `send*Message`: publish, then hand the encoded message to the local state manager. */
    method Send(msg: Message, now: int) returns (ghost pick: Option<string>)
      requires Valid()
      modifies this`sent, matchStateManager, matchAgent
      decreases Restartable(matchAgent.View()), 0, MessagePotential(matchStateManager.matchMap, msg, now), 3
      ensures Valid()
      ensures View() == Delivered(old(View()).(sent := old(sent) + [msg]), msg, now, pick)
      ensures DeliveredPickOk(old(View()).(sent := old(sent) + [msg]), msg, now, pick)
    {
      sent := sent + [msg];
      var decoded := Deserialise(ChannelOf(msg), Serialise(msg));
      pick := Handle(decoded.value, now);
    }

    /** `_handle*Message`: a message that does not decode is dropped. */
    method Receive(channel: Channel, obj: JsonObject, now: int) returns (ghost pick: Option<string>)
      requires Valid()
      modifies this`sent, matchStateManager, matchAgent
      ensures Valid()
      ensures Deserialise(channel, obj).None? ==> View() == old(View())
      ensures Deserialise(channel, obj).Some? ==>
                && View() == Delivered(old(View()), Deserialise(channel, obj).value, now, pick)
                && DeliveredPickOk(old(View()), Deserialise(channel, obj).value, now, pick)
    {
      pick := None;
      var decoded := Deserialise(channel, obj);
      if decoded.Some? {
        pick := Handle(decoded.value, now);
      }
    }

    /** Passes a decoded message to the state manager's handler for its kind. */
    method Handle(msg: Message, now: int) returns (ghost pick: Option<string>)
      requires Valid()
      modifies this`sent, matchStateManager, matchAgent
      decreases Restartable(matchAgent.View()), 0, MessagePotential(matchStateManager.matchMap, msg, now), 2
      ensures Valid()
      ensures View() == Delivered(old(View()), msg, now, pick)
      ensures DeliveredPickOk(old(View()), msg, now, pick)
    {
      pick := None;
      match msg
      case Advertise(_, _, _) =>
        pick := matchStateManager.HandleAdvertiseMessage(msg, now);
      case Unadvertise(_) =>
        matchStateManager.HandleUnadvertiseMessage(msg);
      case Claim(_, _, _) =>
        pick := matchStateManager.HandleClaimMessage(msg, now);
      case Ack(_, _) =>
        pick := matchStateManager.HandleAckMessage(msg, now);
    }

    method AddMatchStateListener(listener: ListenerId)
      requires Valid()
      modifies matchStateManager`observers
      ensures Valid()
      ensures View() == old(View()).(observers := old(View()).observers + [listener])
    {
      matchStateManager.AddListener(listener);
    }
  }
}
