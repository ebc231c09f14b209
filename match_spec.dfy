/**
 * What one client's matchmaking does, event by event, stated on a snapshot
 * of its state: the state manager's map and listeners, the agent's fields,
 * and logs of what it published and which callbacks it called. Each event
 * handler of src/Matcher.ts is given here as a function from the snapshot
 * before to the snapshot after; the classes in matcher.dfy are proved to
 * behave like these functions, and the protocol's properties are proved
 * about the functions.
 *
 * Published messages are looped back to the local state manager at once
 * (src/Matcher.ts:542-576), and the agent reacts to every update of the
 * match it is working on before the other listeners see it, so one event
 * can run a whole chain of handlers; the functions below give the net
 * effect of that chain.
 */
module MatchSpec {
  import opened Wrappers
  import opened Identity
  import opened MatchMessages
  import opened MatchStates

  /** A hosting agent re-advertises after this many milliseconds without a claim. */
  const SERVING_REBROADCAST_TIMEOUT := 10000
  /** A joining agent gives up on its claim after this many milliseconds without an ack. */
  const CLAIM_ACK_TIMEOUT := 5000

  datatype AgentState = Idle | ServingWaitingClaims | JoiningWaitingAck

  /** Stands for a caller-supplied match callback. */
  type CallbackId = nat
  /** Stands for a listener registered with `addMatchStateListener`. */
  type ListenerId = nat

  /** `MatchResult`: the agreed match, or none when matching was stopped. */
  datatype MatchResult = MatchResult(matchState: Option<MatchState>)

  /** One call of a match callback. */
  datatype Delivery = Delivery(callback: CallbackId, result: MatchResult)

  /** One call of a state listener; the entry is absent once it was removed. */
  datatype Notification = Notification(listener: ListenerId, state: Option<MatchState>)

  datatype AgentView = AgentView(
    id: PublicKey,
    state: AgentState,
    counter: int,
    lastActionStart: int,
    targetMatch: Option<string>,
    matchId: Option<string>,
    matchCallback: Option<CallbackId>)

  datatype NodeView = NodeView(
    matchMap: MatchMap,
    observers: seq<ListenerId>,
    notified: seq<Notification>,
    agent: AgentView,
    sent: seq<Message>,
    results: seq<Delivery>)

  /** JavaScript truthiness of a nullable string: null and "" are false. */
  predicate Truthy(o: Option<string>)
  {
    o.Some? && o.value != ""
  }

  /** `clearState`: back to IDLE, forgetting match, target and callback (counter and time stay). */
  function Cleared(a: AgentView): (r: AgentView)
    ensures r.state == Idle && r.matchId == None && r.targetMatch == None && r.matchCallback == None
    ensures r.id == a.id && r.counter == a.counter && r.lastActionStart == a.lastActionStart
  {
    a.(state := Idle, matchId := None, targetMatch := None, matchCallback := None)
  }

  /** `_matchCallback`: the callback is called only when one is set. */
  function Fired(cb: Option<CallbackId>, r: MatchResult): (d: seq<Delivery>)
    ensures |d| <= 1
    ensures |d| == 1 <==> cb.Some?
    ensures cb.Some? ==> d[0] == Delivery(cb.value, r)
  {
    if cb.Some? then [Delivery(cb.value, r)] else []
  }

  /** The other listeners each see the current entry for `matchId`, in registration order. */
  function Notify(v: NodeView, matchId: string): (r: NodeView)
    ensures r == v.(notified := r.notified)
    ensures |r.notified| == |v.notified| + |v.observers|
    ensures r.notified[..|v.notified|] == v.notified
    ensures forall i :: 0 <= i < |v.observers| ==>
              r.notified[|v.notified| + i] ==
                Notification(v.observers[i], if matchId in v.matchMap then Some(v.matchMap[matchId]) else None)
  {
    var st := if matchId in v.matchMap then Some(v.matchMap[matchId]) else None;
    v.(notified := v.notified + seq(|v.observers|, i requires 0 <= i < |v.observers| => Notification(v.observers[i], st)))
  }

  /**
   * A hosting agent's answer to a claim on its advert `s` (the live entry):
   * it acks the first claimant, removes the advert and reports the match.
   * The ack loops back; if the claimant was not yet acknowledged the
   * loop-back records the ack, the agent is told again while still hosting
   * and answers once more from inside that call: the ack goes out twice,
   * the callback runs in the inner call with the acknowledged state and
   * the outer call finds the callback already cleared.
   */
  function ServeAccepted(v: NodeView, s: MatchState): NodeView
    requires |s.claimsSeen| > 0
  {
    var m, u, cb := s.matchId, s.claimsSeen[0].0, v.agent.matchCallback;
    if u in s.acksSeen then
      v.(sent := v.sent + [Ack(m, u)],
         matchMap := v.matchMap - {m},
         results := v.results + Fired(cb, MatchResult(Some(s))),
         agent := Cleared(v.agent))
    else
      var acked := s.(acksSeen := s.acksSeen + [u]);
      v.(sent := v.sent + [Ack(m, u), Ack(m, u)],
         matchMap := v.matchMap - {m},
         results := v.results + Fired(cb, MatchResult(Some(acked))),
         notified := v.notified + seq(|v.observers|, i requires 0 <= i < |v.observers| => Notification(v.observers[i], None)),
         agent := Cleared(v.agent))
  }

  /**
   * What the loop-back of a host's ack does: when the claimant was already
   * acknowledged nothing; otherwise the ack is recorded, the host is told
   * again while still hosting and completes the match from inside that
   * call (a second ack, the advert removed, the callback run with the
   * acknowledged state, the agent cleared), and the other listeners see
   * the advert gone.
   */
  lemma AckLoopback(v: NodeView, s: MatchState, now: int, pick: Option<string>)
    requires s.matchId in v.matchMap && v.matchMap[s.matchId] == s && |s.claimsSeen| > 0
    requires v.agent.state == ServingWaitingClaims && v.agent.matchId == Some(s.matchId)
    ensures var m, u := s.matchId, s.claimsSeen[0].0;
            var r := Delivered(v.(sent := v.sent + [Ack(m, u)]), Ack(m, u), now, pick);
            if u in s.acksSeen then r == v.(sent := v.sent + [Ack(m, u)])
            else r == v.(sent := v.sent + [Ack(m, u), Ack(m, u)],
                         matchMap := v.matchMap - {m},
                         results := v.results + Fired(v.agent.matchCallback, MatchResult(Some(s.(acksSeen := s.acksSeen + [u])))),
                         notified := v.notified + seq(|v.observers|, i requires 0 <= i < |v.observers| => Notification(v.observers[i], None)),
                         agent := Cleared(v.agent))
    ensures var m, u := s.matchId, s.claimsSeen[0].0;
            var r := Delivered(v.(sent := v.sent + [Ack(m, u)]), Ack(m, u), now, pick);
            ServeAccepted(v, s) == r.(matchMap := r.matchMap - {m},
                                      results := r.results + Fired(r.agent.matchCallback, MatchResult(Some(s))),
                                      agent := Cleared(r.agent))
  {
    var m, u := s.matchId, s.claimsSeen[0].0;
    var v0 := v.(sent := v.sent + [Ack(m, u)]);
    if u !in s.acksSeen {
      var acked := s.(acksSeen := s.acksSeen + [u]);
      var v1 := v0.(matchMap := Acked(v0.matchMap, m, u));
      assert v1.matchMap[m] == acked;
      assert Reacted(v1, acked, now, pick) == ServeAccepted(v1, acked);
    }
  }

  /** A joining agent that sees itself acknowledged first: remove the advert, report it, clear. */
  function JoinAccepted(v: NodeView, s: MatchState): NodeView
  {
    v.(matchMap := v.matchMap - {s.matchId},
       results := v.results + Fired(v.agent.matchCallback, MatchResult(Some(s))),
       agent := Cleared(v.agent))
  }

  /** A candidate for joining: same match name, somebody else's advert, nobody acknowledged yet. */
  predicate Eligible(m: MatchMap, k: string, id: PublicKey, target: string)
  {
    k in m && m[k].matchName == target && m[k].advertiser != id && |m[k].acksSeen| == 0
  }

  /**
   * The shuffled search of `startMatch` may settle on any eligible advert,
   * and finds none only when there is none.
   */
  predicate StartPickOk(m: MatchMap, id: PublicKey, target: string, pick: Option<string>)
  {
    match pick
    case Some(k) => Eligible(m, k, id, target)
    case None => forall k :: k in m ==> !Eligible(m, k, id, target)
  }

  /** `startMatch`'s first steps: take the target, counter and callback, forget the match. */
  function Prepared(v: NodeView, target: string, counter: int, cb: CallbackId): (r: NodeView)
    ensures r.agent.targetMatch == Some(target) && r.agent.matchCallback == Some(cb)
  {
    v.(agent := v.agent.(counter := counter, targetMatch := Some(target), matchCallback := Some(cb), matchId := None))
  }

  /**
   * Joining advert `k`: the claim goes out and is recorded by the local
   * state manager while the agent's `matchId` is still unset, so the agent
   * ignores that update; only then is `matchId` set.
   */
  function Joined(v: NodeView, k: string, now: int): NodeView
  {
    var a := v.agent;
    var v1 := v.(agent := a.(state := JoiningWaitingAck, lastActionStart := now),
                 sent := v.sent + [Claim(k, a.id, a.counter)]);
    var v2 := if k in v1.matchMap && a.id !in Claimants(v1.matchMap[k].claimsSeen)
              then Notify(v1.(matchMap := Claimed(v1.matchMap, k, a.id, a.counter)), k)
              else v1;
    v2.(agent := v2.agent.(matchId := Some(k)))
  }

  /**
   * A claim handled while the agent has no match identifier: the agent
   * ignores the update, so only the map and the other listeners see it.
   */
  lemma ClaimWhileUnset(v: NodeView, k: string, u: PublicKey, c: int, now: int, pick: Option<string>)
    requires v.agent.matchId == None
    ensures ClaimHandled(v, k, u, c, now, pick)
         == if ClaimRecorded(v, k, u) then Notify(v.(matchMap := Claimed(v.matchMap, k, u, c)), k) else v
  {
  }

  /**
   * Hosting: the agent adopts its own identifier and advertises; if its
   * advert is already known with a claim on it, it accepts that claim at once.
   */
  function Hosted(v: NodeView, now: int): NodeView
    requires v.agent.targetMatch.Some?
  {
    var a := v.agent;
    var target := a.targetMatch.value;
    var m0 := GetMatchID(a.id, target);
    var v1 := v.(agent := a.(matchId := Some(m0), state := ServingWaitingClaims, lastActionStart := now),
                 sent := v.sent + [Advertise(a.id, target, a.counter)]);
    var v2 := v1.(matchMap := Advertised(v1.matchMap, a.id, target, a.counter, now));
    var s := v2.matchMap[m0];
    var v3 := if s.matchId == m0 && |s.claimsSeen| > 0 then ServeAccepted(v2, s) else v2;
    Notify(v3, m0)
  }

  /** `startMatch` from IDLE: join the advert `pick` if there is one to join, host otherwise. */
  function Started(v: NodeView, target: string, counter: int, cb: CallbackId, now: int, pick: Option<string>): NodeView
  {
    var p := Prepared(v, target, counter, cb);
    match pick
    case Some(k) => Joined(p, k, now)
    case None => Hosted(p, now)
  }

  /** `restartMatch` goes ahead only for a busy agent with a non-empty target and a callback. */
  predicate RestartGuard(a: AgentView)
  {
    a.state != Idle && Truthy(a.targetMatch) && a.matchCallback.Some?
  }

  /** `restartMatch`: back to IDLE, then `startMatch` with the same target, counter and callback. */
  function Restarted(v: NodeView, now: int, pick: Option<string>): NodeView
  {
    if !RestartGuard(v.agent) then v
    else
      Started(v.(agent := v.agent.(state := Idle)),
              v.agent.targetMatch.value, v.agent.counter, v.agent.matchCallback.value, now, pick)
  }

  predicate RestartPickOk(v: NodeView, pick: Option<string>)
  {
    RestartGuard(v.agent) ==> StartPickOk(v.matchMap, v.agent.id, v.agent.targetMatch.value, pick)
  }

  /** Whether the agent's answer to state `s` is to restart: it was joining and someone else was acknowledged. */
  predicate ReactRestarts(v: NodeView, s: MatchState)
  {
    v.agent.matchId == Some(s.matchId) && v.agent.state == JoiningWaitingAck
    && |s.acksSeen| > 0 && s.acksSeen[0] != v.agent.id
  }

  /**
   * `handleMatchStateUpdate` given the live entry `s`: updates for other
   * matches are ignored; a host accepts the first claim; a joiner succeeds
   * when it is the first acknowledged user and restarts when somebody else is.
   */
  function Reacted(v: NodeView, s: MatchState, now: int, pick: Option<string>): NodeView
  {
    if v.agent.matchId != Some(s.matchId) then v
    else if v.agent.state == ServingWaitingClaims then
      if |s.claimsSeen| > 0 then ServeAccepted(v, s) else v
    else if v.agent.state == JoiningWaitingAck then
      if |s.acksSeen| == 0 then v
      else if s.acksSeen[0] == v.agent.id then JoinAccepted(v, s)
      else Restarted(v, now, pick)
    else v
  }

  predicate ReactPickOk(v: NodeView, s: MatchState, pick: Option<string>)
  {
    ReactRestarts(v, s) ==> RestartPickOk(v, pick)
  }

  /** `raiseUpdateEvent(matchId)`: the agent first, then the other listeners. */
  function Raised(v: NodeView, matchId: string, now: int, pick: Option<string>): NodeView
    requires matchId in v.matchMap
  {
    Notify(Reacted(v, v.matchMap[matchId], now, pick), matchId)
  }

  predicate RaisePickOk(v: NodeView, matchId: string, pick: Option<string>)
    requires matchId in v.matchMap
  {
    ReactPickOk(v, v.matchMap[matchId], pick)
  }

  /** `handleAdvertiseMessage`: record or refresh the advert, then raise an update for it. */
  function AdvertiseHandled(v: NodeView, advertiser: PublicKey, matchName: string, counter: int, now: int, pick: Option<string>): NodeView
  {
    Raised(v.(matchMap := Advertised(v.matchMap, advertiser, matchName, counter, now)),
           GetMatchID(advertiser, matchName), now, pick)
  }

  predicate AdvertisePickOk(v: NodeView, advertiser: PublicKey, matchName: string, counter: int, now: int, pick: Option<string>)
  {
    RaisePickOk(v.(matchMap := Advertised(v.matchMap, advertiser, matchName, counter, now)),
                GetMatchID(advertiser, matchName), pick)
  }

  /** `handleUnadvertiseMessage`: drop the advert; nobody is told. */
  function UnadvertiseHandled(v: NodeView, matchId: string): NodeView
  {
    v.(matchMap := v.matchMap - {matchId})
  }

  /** Whether `handleClaimMessage` records the claim (known advert, user not yet a claimant). */
  predicate ClaimRecorded(v: NodeView, matchId: string, user: PublicKey)
  {
    matchId in v.matchMap && user !in Claimants(v.matchMap[matchId].claimsSeen)
  }

  /** `handleClaimMessage`: record a new claim and raise an update; otherwise do nothing. */
  function ClaimHandled(v: NodeView, matchId: string, user: PublicKey, counter: int, now: int, pick: Option<string>): NodeView
  {
    if !ClaimRecorded(v, matchId, user) then v
    else Raised(v.(matchMap := Claimed(v.matchMap, matchId, user, counter)), matchId, now, pick)
  }

  predicate ClaimPickOk(v: NodeView, matchId: string, user: PublicKey, counter: int, pick: Option<string>)
  {
    ClaimRecorded(v, matchId, user) ==>
      RaisePickOk(v.(matchMap := Claimed(v.matchMap, matchId, user, counter)), matchId, pick)
  }

  /** Whether `handleAckMessage` records the ack (known advert, user not yet acknowledged). */
  predicate AckRecorded(v: NodeView, matchId: string, user: PublicKey)
  {
    matchId in v.matchMap && user !in v.matchMap[matchId].acksSeen
  }

  /** `handleAckMessage`: record a new ack, raise an update, then drop the advert. */
  function AckHandled(v: NodeView, matchId: string, user: PublicKey, now: int, pick: Option<string>): NodeView
  {
    if !AckRecorded(v, matchId, user) then v
    else
      var v2 := Raised(v.(matchMap := Acked(v.matchMap, matchId, user)), matchId, now, pick);
      v2.(matchMap := v2.matchMap - {matchId})
  }

  predicate AckPickOk(v: NodeView, matchId: string, user: PublicKey, pick: Option<string>)
  {
    AckRecorded(v, matchId, user) ==>
      RaisePickOk(v.(matchMap := Acked(v.matchMap, matchId, user)), matchId, pick)
  }

  /** `stopMatch`: a host withdraws its advert; a busy agent reports "no match" and clears. */
  function Stopped(v: NodeView): NodeView
  {
    var a := v.agent;
    if a.state == Idle then v
    else
      var v1 := if a.state == ServingWaitingClaims && Truthy(a.matchId)
                then UnadvertiseHandled(v.(sent := v.sent + [Unadvertise(a.matchId.value)]), a.matchId.value)
                else v;
      v1.(results := v1.results + Fired(a.matchCallback, MatchResult(None)), agent := Cleared(a))
  }

  /**
   * When `poll(now)` restarts: a host after SERVING_REBROADCAST_TIMEOUT; a
   * joiner whose advert vanished, or was acknowledged to somebody else, or
   * (with no ack yet) after CLAIM_ACK_TIMEOUT.
   */
  predicate PollRestarts(v: NodeView, now: int)
  {
    var a := v.agent;
    if a.state == ServingWaitingClaims then now - a.lastActionStart > SERVING_REBROADCAST_TIMEOUT
    else if a.state == JoiningWaitingAck then
      if Truthy(a.matchId) && a.matchId.value !in v.matchMap then true
      else if Truthy(a.matchId) && |v.matchMap[a.matchId.value].acksSeen| > 0 then
        v.matchMap[a.matchId.value].acksSeen[0] != a.id
      else now - a.lastActionStart > CLAIM_ACK_TIMEOUT
    else false
  }

  function Polled(v: NodeView, now: int, pick: Option<string>): NodeView
  {
    if PollRestarts(v, now) then Restarted(v, now, pick) else v
  }

  predicate PollPickOk(v: NodeView, now: int, pick: Option<string>)
  {
    PollRestarts(v, now) ==> RestartPickOk(v, pick)
  }

  /** The state manager's handling of a message, whichever of the four kinds it is. */
  function Delivered(v: NodeView, msg: Message, now: int, pick: Option<string>): NodeView
  {
    match msg
    case Advertise(a, n, c) => AdvertiseHandled(v, a, n, c, now, pick)
    case Unadvertise(id) => UnadvertiseHandled(v, id)
    case Claim(id, u, c) => ClaimHandled(v, id, u, c, now, pick)
    case Ack(id, u) => AckHandled(v, id, u, now, pick)
  }

  predicate DeliveredPickOk(v: NodeView, msg: Message, now: int, pick: Option<string>)
  {
    match msg
    case Advertise(a, n, c) => AdvertisePickOk(v, a, n, c, now, pick)
    case Unadvertise(_) => true
    case Claim(id, u, c) => ClaimPickOk(v, id, u, c, pick)
    case Ack(id, u) => AckPickOk(v, id, u, pick)
  }

  // Termination measures for the chain of handlers one event can run.

  /** 1 while the agent waits for an ack on a chosen advert: only then can it restart. */
  function Restartable(a: AgentView): nat
  {
    if a.state == JoiningWaitingAck && a.matchId.Some? then 1 else 0
  }

  /** 1 when the first claim of an entry is not acknowledged yet. */
  function FirstClaimPending(s: MatchState): nat
  {
    if |s.claimsSeen| > 0 && s.claimsSeen[0].0 !in s.acksSeen then 1 else 0
  }

  function NotifyPotential(m: MatchMap, matchId: string): nat
  {
    if matchId in m then FirstClaimPending(m[matchId]) else 0
  }

  /** How many more acks an ack of `user` on `matchId` can lead to. */
  function AckPotential(m: MatchMap, matchId: string, user: PublicKey): nat
  {
    if matchId !in m then 0
    else
      var s := m[matchId];
      (if user !in s.acksSeen then 1 else 0)
      + (if |s.claimsSeen| > 0 && s.claimsSeen[0].0 !in s.acksSeen && s.claimsSeen[0].0 != user then 1 else 0)
  }

  function ReactPotential(m: MatchMap, s: MatchState): nat
  {
    if |s.claimsSeen| > 0 then AckPotential(m, s.matchId, s.claimsSeen[0].0) else 0
  }

  /** How many more acks delivering `msg` can lead to; one more than its update event for adverts and claims. */
  function MessagePotential(m: MatchMap, msg: Message, now: int): nat
  {
    match msg
    case Advertise(a, n, c) => NotifyPotential(Advertised(m, a, n, c, now), GetMatchID(a, n)) + 1
    case Unadvertise(_) => 0
    case Claim(id, u, c) => NotifyPotential(Claimed(m, id, u, c), id) + 1
    case Ack(id, u) => AckPotential(m, id, u)
  }
}
