/**
 * Properties of the matchmaking protocol, proved about the event functions
 * of match_spec.dfy (and so, through the method contracts of matcher.dfy,
 * about the classes).
 */
module MatchProperties {
  import opened Wrappers
  import opened Identity
  import opened MatchMessages
  import opened MatchStates
  import opened MatchSpec

  /**
   * The agent's fields agree with its state between events: an idle agent
   * holds no match, target or callback; a busy one holds all three; a host
   * works on its own advert.
   */
  predicate AgentInv(a: AgentView)
  {
    && (a.state == Idle ==> a.matchId.None? && a.targetMatch.None? && a.matchCallback.None?)
    && (a.state != Idle ==> a.matchId.Some? && a.targetMatch.Some? && a.matchCallback.Some?)
    && (a.state == ServingWaitingClaims ==> a.matchId == Some(GetMatchID(a.id, a.targetMatch.value)))
  }

  /**
   * How one event may extend the callback log: by at most one report, made
   * to the agent's callback, after which the agent is idle; and an agent
   * that stops being busy always reports.
   */
  predicate ReportsOnce(v: NodeView, r: NodeView)
  {
    && r.agent.id == v.agent.id
    && |v.results| <= |r.results| <= |v.results| + 1
    && r.results[..|v.results|] == v.results
    && (|r.results| == |v.results| + 1 ==>
          && v.agent.matchCallback.Some?
          && r.results[|v.results|].callback == v.agent.matchCallback.value
          && r.agent.state == Idle)
    && (v.agent.state != Idle && r.agent.state == Idle ==> |r.results| == |v.results| + 1)
  }

  lemma ServeAcceptedReports(v: NodeView, s: MatchState)
    requires |s.claimsSeen| > 0 && AgentInv(v.agent) && v.agent.state == ServingWaitingClaims
    ensures ReportsOnce(v, ServeAccepted(v, s)) && AgentInv(ServeAccepted(v, s).agent)
    ensures ServeAccepted(v, s).results[|v.results|].result.matchState.Some?
  {
  }

  lemma HostedReports(v: NodeView, now: int)
    requires v.agent.targetMatch.Some? && v.agent.matchCallback.Some?
    ensures var r := Hosted(v, now);
            && AgentInv(r.agent) && r.agent.id == v.agent.id
            && |v.results| <= |r.results| <= |v.results| + 1
            && r.results[..|v.results|] == v.results
            && (|r.results| == |v.results| + 1 <==> r.agent.state == Idle)
            && (|r.results| == |v.results| + 1 ==> r.results[|v.results|].callback == v.agent.matchCallback.value)
  {
    var a := v.agent;
    var m0 := GetMatchID(a.id, a.targetMatch.value);
    var v1 := v.(agent := a.(matchId := Some(m0), state := ServingWaitingClaims, lastActionStart := now),
                 sent := v.sent + [Advertise(a.id, a.targetMatch.value, a.counter)]);
    var v2 := v1.(matchMap := Advertised(v1.matchMap, a.id, a.targetMatch.value, a.counter, now));
    var s := v2.matchMap[m0];
    if s.matchId == m0 && |s.claimsSeen| > 0 {
      ServeAcceptedReports(v2, s);
    }
  }

  /**
   * `startMatch` from IDLE leaves the agent consistent. It never reports
   * "no match"; it reports a match only when it hosts and its own advert
   * already carried a claim, and then it is idle again.
   */
  lemma StartedKeepsAgentInv(v: NodeView, target: string, counter: int, cb: CallbackId, now: int, pick: Option<string>)
    ensures var r := Started(v, target, counter, cb, now, pick);
            && AgentInv(r.agent) && r.agent.id == v.agent.id
            && |v.results| <= |r.results| <= |v.results| + 1
            && r.results[..|v.results|] == v.results
            && (|r.results| == |v.results| + 1 <==> r.agent.state == Idle)
            && (|r.results| == |v.results| + 1 ==> r.results[|v.results|].callback == cb)
  {
    var p := Prepared(v, target, counter, cb);
    if pick.None? {
      HostedReports(p, now);
    }
  }

  lemma RestartedReports(v: NodeView, now: int, pick: Option<string>)
    requires AgentInv(v.agent)
    ensures ReportsOnce(v, Restarted(v, now, pick)) && AgentInv(Restarted(v, now, pick).agent)
  {
    if RestartGuard(v.agent) {
      StartedKeepsAgentInv(v.(agent := v.agent.(state := Idle)),
                           v.agent.targetMatch.value, v.agent.counter, v.agent.matchCallback.value, now, pick);
    }
  }

  /** The agent's answer to any update keeps it consistent and reports at most once. */
  lemma ReactedReports(v: NodeView, s: MatchState, now: int, pick: Option<string>)
    requires AgentInv(v.agent)
    ensures ReportsOnce(v, Reacted(v, s, now, pick)) && AgentInv(Reacted(v, s, now, pick).agent)
  {
    if v.agent.matchId == Some(s.matchId) {
      if v.agent.state == ServingWaitingClaims && |s.claimsSeen| > 0 {
        ServeAcceptedReports(v, s);
      } else if v.agent.state == JoiningWaitingAck && |s.acksSeen| > 0 && s.acksSeen[0] != v.agent.id {
        RestartedReports(v, now, pick);
      }
    }
  }

  /**
   * Whatever message the state manager handles, the agent stays consistent
   * and its callback is called at most once, ending the attempt.
   */
  lemma DeliveredReports(v: NodeView, msg: Message, now: int, pick: Option<string>)
    requires AgentInv(v.agent)
    ensures ReportsOnce(v, Delivered(v, msg, now, pick)) && AgentInv(Delivered(v, msg, now, pick).agent)
  {
    match msg
    case Advertise(a, n, c) =>
      var v1 := v.(matchMap := Advertised(v.matchMap, a, n, c, now));
      ReactedReports(v1, v1.matchMap[GetMatchID(a, n)], now, pick);
    case Unadvertise(_) =>
    case Claim(id, u, c) =>
      if ClaimRecorded(v, id, u) {
        var v1 := v.(matchMap := Claimed(v.matchMap, id, u, c));
        ReactedReports(v1, v1.matchMap[id], now, pick);
      }
    case Ack(id, u) =>
      if AckRecorded(v, id, u) {
        var v1 := v.(matchMap := Acked(v.matchMap, id, u));
        ReactedReports(v1, v1.matchMap[id], now, pick);
      }
  }

  /** `poll` keeps the agent consistent and reports at most once. */
  lemma PolledReports(v: NodeView, now: int, pick: Option<string>)
    requires AgentInv(v.agent)
    ensures ReportsOnce(v, Polled(v, now, pick)) && AgentInv(Polled(v, now, pick).agent)
  {
    if PollRestarts(v, now) {
      RestartedReports(v, now, pick);
    }
  }

  /** `stopMatch` ends a busy agent's attempt with exactly one "no match" report. */
  lemma StoppedReportsNone(v: NodeView)
    requires AgentInv(v.agent)
    ensures var r := Stopped(v);
            && ReportsOnce(v, r) && AgentInv(r.agent) && r.agent.state == Idle
            && (v.agent.state != Idle ==> r.results == v.results + [Delivery(v.agent.matchCallback.value, MatchResult(None))])
  {
  }

  /**
   * A host that sees a claim on its advert acks the first claimant,
   * withdraws the advert from its own picture and reports a match in which
   * that claimant is both first claimant and acknowledged.
   */
  lemma HostAcceptsFirstClaimant(v: NodeView, s: MatchState, now: int, pick: Option<string>)
    requires AgentInv(v.agent) && v.agent.state == ServingWaitingClaims && v.agent.matchId == Some(s.matchId)
    requires |s.claimsSeen| > 0
    ensures var r := Reacted(v, s, now, pick);
            var u := s.claimsSeen[0].0;
            && r.agent.state == Idle
            && s.matchId !in r.matchMap
            && r.sent[|r.sent| - 1] == Ack(s.matchId, u)
            && |r.results| == |v.results| + 1
            && r.results[|v.results|].callback == v.agent.matchCallback.value
            && var t := r.results[|v.results|].result.matchState;
               t.Some? && t.value.matchId == s.matchId && t.value.claimsSeen == s.claimsSeen && u in t.value.acksSeen
  {
  }

  /**
   * A joiner told about its advert with an ack succeeds when it is the
   * first acknowledged user, reporting that state; when somebody else is
   * first and it has a target to go back to, it stops waiting on that advert.
   */
  lemma JoinerFollowsFirstAck(v: NodeView, s: MatchState, now: int, pick: Option<string>)
    requires AgentInv(v.agent) && v.agent.state == JoiningWaitingAck && v.agent.matchId == Some(s.matchId)
    requires |s.acksSeen| > 0
    requires s.matchId in v.matchMap && v.matchMap[s.matchId] == s
    requires ReactPickOk(v, s, pick)
    ensures var r := Reacted(v, s, now, pick);
            && (s.acksSeen[0] == v.agent.id ==>
                  && r.results == v.results + [Delivery(v.agent.matchCallback.value, MatchResult(Some(s)))]
                  && r.agent.state == Idle && s.matchId !in r.matchMap)
            && (s.acksSeen[0] != v.agent.id && Truthy(v.agent.targetMatch) ==>
                  !(r.agent.state == JoiningWaitingAck && r.agent.matchId == Some(s.matchId)))
  {
    if s.acksSeen[0] != v.agent.id && Truthy(v.agent.targetMatch) {
      var w := v.(agent := v.agent.(state := Idle));
      var p := Prepared(w, v.agent.targetMatch.value, v.agent.counter, v.agent.matchCallback.value);
      match pick
      case Some(k) =>
        assert Eligible(v.matchMap, k, v.agent.id, v.agent.targetMatch.value);
        assert k != s.matchId;
      case None =>
        HostedReports(p, now);
    }
  }

  /**
   * `startMatch` never joins the caller's own advert: a chosen advert is
   * somebody else's, unacknowledged, for the requested match; the claim is
   * published and recorded locally, and the agent waits on that advert.
   */
  lemma JoinsOnlyOthersAdverts(v: NodeView, target: string, counter: int, cb: CallbackId, now: int, k: string)
    requires StartPickOk(v.matchMap, v.agent.id, target, Some(k))
    ensures var r := Started(v, target, counter, cb, now, Some(k));
            && v.matchMap[k].advertiser != v.agent.id
            && v.matchMap[k].matchName == target && v.matchMap[k].acksSeen == []
            && r.agent.state == JoiningWaitingAck && r.agent.matchId == Some(k)
            && r.sent == v.sent + [Claim(k, v.agent.id, counter)]
            && k in r.matchMap && v.agent.id in Claimants(r.matchMap[k].claimsSeen)
            && r.results == v.results
  {
    var p := Prepared(v, target, counter, cb);
    assert p.matchMap == v.matchMap;
    if v.agent.id !in Claimants(v.matchMap[k].claimsSeen) {
      assert Claimants(Claimed(v.matchMap, k, v.agent.id, counter)[k].claimsSeen)
        == Claimants(v.matchMap[k].claimsSeen) + [v.agent.id];
    }
  }

  /**
   * With nothing to join, `startMatch` advertises the caller's own match
   * and then either waits for claims on it or, when that advert already
   * carried a claim, completes the match at once.
   */
  lemma HostsWhenNothingToJoin(v: NodeView, target: string, counter: int, cb: CallbackId, now: int)
    requires StartPickOk(v.matchMap, v.agent.id, target, None)
    ensures var r := Started(v, target, counter, cb, now, None);
            var m0 := GetMatchID(v.agent.id, target);
            && r.sent[|v.sent|] == Advertise(v.agent.id, target, counter)
            && ((r.agent.state == ServingWaitingClaims && r.agent.matchId == Some(m0) && m0 in r.matchMap
                 && r.results == v.results)
                || (r.agent.state == Idle && |r.results| == |v.results| + 1 && m0 !in r.matchMap))
  {
  }

  /** An empty target is falsy: `restartMatch` then does nothing at all. */
  lemma EmptyTargetNeverRestarts(v: NodeView, now: int, pick: Option<string>)
    requires v.agent.targetMatch == Some("")
    ensures Restarted(v, now, pick) == v
  {
  }

  /** A client that has just been created: nothing known, agent idle. */
  function FreshClient(id: PublicKey): (v: NodeView)
    ensures AgentInv(v.agent) && v.agent.id == id && v.matchMap == map[]
  {
    NodeView(map[], [], [], AgentView(id, Idle, 0, 0, None, None, None), [], [])
  }

  /** The advert of `a` for `name` as a client records it at time `t`, with the given claims and acks. */
  function AdvertEntry(a: PublicKey, name: string, counter: int, t: int, claims: seq<ClaimEntry>, acks: seq<PublicKey>): MatchState
  {
    NewMatchState(a, counter, name, t).(claimsSeen := claims, acksSeen := acks)
  }

  lemma HostAdvertises(a: PublicKey, name: string, ca: int, callback: CallbackId, t: int)
    ensures Started(FreshClient(a), name, ca, callback, t, None)
         == NodeView(map[GetMatchID(a, name) := AdvertEntry(a, name, ca, t, [], [])], [], [],
                     AgentView(a, ServingWaitingClaims, ca, t, Some(name), Some(GetMatchID(a, name)), Some(callback)),
                     [Advertise(a, name, ca)], [])
  {
    var m0 := GetMatchID(a, name);
    var p := Prepared(FreshClient(a), name, ca, callback);
    assert Advertised(map[], a, name, ca, t) == map[m0 := AdvertEntry(a, name, ca, t, [], [])];
  }

  lemma JoinerHearsAdvert(a: PublicKey, b: PublicKey, name: string, ca: int, t: int, pick: Option<string>)
    ensures Delivered(FreshClient(b), Advertise(a, name, ca), t, pick)
         == FreshClient(b).(matchMap := map[GetMatchID(a, name) := AdvertEntry(a, name, ca, t, [], [])])
  {
    var m0 := GetMatchID(a, name);
    assert Advertised(map[], a, name, ca, t) == map[m0 := AdvertEntry(a, name, ca, t, [], [])];
  }

  lemma JoinerClaims(a: PublicKey, b: PublicKey, name: string, ca: int, cb: int, callback: CallbackId, t: int, t': int)
    requires a != b
    ensures var m0 := GetMatchID(a, name);
            var v := FreshClient(b).(matchMap := map[m0 := AdvertEntry(a, name, ca, t, [], [])]);
            && StartPickOk(v.matchMap, b, name, Some(m0))
            && Started(v, name, cb, callback, t', Some(m0))
               == NodeView(map[m0 := AdvertEntry(a, name, ca, t, [(b, cb)], [])], [], [],
                           AgentView(b, JoiningWaitingAck, cb, t', Some(name), Some(m0), Some(callback)),
                           [Claim(m0, b, cb)], [])
  {
    var m0 := GetMatchID(a, name);
    var v := FreshClient(b).(matchMap := map[m0 := AdvertEntry(a, name, ca, t, [], [])]);
    assert Claimants([]) == [];
    assert v.matchMap[m0].claimsSeen + [(b, cb)] == [(b, cb)];
    assert Claimed(v.matchMap, m0, b, cb) == map[m0 := AdvertEntry(a, name, ca, t, [(b, cb)], [])];
  }

  lemma HostAccepts(a: PublicKey, b: PublicKey, name: string, ca: int, cb: int, callback: CallbackId, t: int, t': int, pick: Option<string>)
    ensures var m0 := GetMatchID(a, name);
            var v := NodeView(map[m0 := AdvertEntry(a, name, ca, t, [], [])], [], [],
                              AgentView(a, ServingWaitingClaims, ca, t, Some(name), Some(m0), Some(callback)),
                              [Advertise(a, name, ca)], []);
            Delivered(v, Claim(m0, b, cb), t', pick)
            == NodeView(map[], [], [], AgentView(a, Idle, ca, t, None, None, None),
                        [Advertise(a, name, ca), Ack(m0, b), Ack(m0, b)],
                        [Delivery(callback, MatchResult(Some(AdvertEntry(a, name, ca, t, [(b, cb)], [b]))))])
  {
    var m0 := GetMatchID(a, name);
    var v := NodeView(map[m0 := AdvertEntry(a, name, ca, t, [], [])], [], [],
                      AgentView(a, ServingWaitingClaims, ca, t, Some(name), Some(m0), Some(callback)),
                      [Advertise(a, name, ca)], []);
    var claimed := AdvertEntry(a, name, ca, t, [(b, cb)], []);
    assert Claimants([]) == [];
    var v1 := v.(matchMap := map[m0 := claimed]);
    assert v.matchMap[m0].claimsSeen + [(b, cb)] == [(b, cb)];
    assert Claimed(v.matchMap, m0, b, cb) == v1.matchMap;
    assert Reacted(v1, claimed, t', pick) == ServeAccepted(v1, claimed);
    assert claimed.acksSeen + [b] == [b];
    assert |ServeAccepted(v1, claimed).notified| == 0;
    assert v1.matchMap - {m0} == map[];
  }

  lemma JoinerAcked(a: PublicKey, b: PublicKey, name: string, ca: int, cb: int, callback: CallbackId, t: int, t': int, t'': int, pick: Option<string>)
    ensures var m0 := GetMatchID(a, name);
            var v := NodeView(map[m0 := AdvertEntry(a, name, ca, t, [(b, cb)], [])], [], [],
                              AgentView(b, JoiningWaitingAck, cb, t', Some(name), Some(m0), Some(callback)),
                              [Claim(m0, b, cb)], []);
            Delivered(v, Ack(m0, b), t'', pick)
            == NodeView(map[], [], [], AgentView(b, Idle, cb, t', None, None, None),
                        [Claim(m0, b, cb)],
                        [Delivery(callback, MatchResult(Some(AdvertEntry(a, name, ca, t, [(b, cb)], [b]))))])
  {
    var m0 := GetMatchID(a, name);
    var v := NodeView(map[m0 := AdvertEntry(a, name, ca, t, [(b, cb)], [])], [], [],
                      AgentView(b, JoiningWaitingAck, cb, t', Some(name), Some(m0), Some(callback)),
                      [Claim(m0, b, cb)], []);
    var acked := AdvertEntry(a, name, ca, t, [(b, cb)], [b]);
    var v1 := v.(matchMap := map[m0 := acked]);
    assert v.matchMap[m0].acksSeen + [b] == [b];
    assert Acked(v.matchMap, m0, b) == v1.matchMap;
    assert Reacted(v1, acked, t'', pick) == JoinAccepted(v1, acked);
    assert v1.matchMap - {m0} == map[];
  }

  /**
   * Two clients looking for the same match end up in it together. Host `a`
   * finds nothing and advertises; joiner `b` hears the advert, starts, and
   * claims it; `a` hears the claim and acks `b`; `b` hears the ack. Both
   * are then idle, each callback was called once, and both report the same
   * match (up to when each last heard the advert): advertised by `a`, with
   * `b` as its only claimant and only acknowledged user.
   */
  lemma TwoClientsMatch(a: PublicKey, b: PublicKey, name: string, ca: int, cb: int,
                        hostCallback: CallbackId, joinCallback: CallbackId,
                        t1: int, t2: int, t3: int, t4: int, t5: int, p1: Option<string>, p2: Option<string>, p3: Option<string>)
    requires a != b
    ensures var m0 := GetMatchID(a, name);
            var host1 := Started(FreshClient(a), name, ca, hostCallback, t1, None);
            var join1 := Delivered(FreshClient(b), Advertise(a, name, ca), t2, p1);
            var join2 := Started(join1, name, cb, joinCallback, t3, Some(m0));
            var host2 := Delivered(host1, Claim(m0, b, cb), t4, p2);
            var join3 := Delivered(join2, Ack(m0, b), t5, p3);
            && StartPickOk(FreshClient(a).matchMap, a, name, None)
            && StartPickOk(join1.matchMap, b, name, Some(m0))
            && host2.sent == [Advertise(a, name, ca), Ack(m0, b), Ack(m0, b)]
            && join3.sent == [Claim(m0, b, cb)]
            && host2.agent.state == Idle && join3.agent.state == Idle
            && m0 !in host2.matchMap && m0 !in join3.matchMap
            && |host2.results| == 1 && host2.results[0].callback == hostCallback
            && |join3.results| == 1 && join3.results[0].callback == joinCallback
            && var hs, js := host2.results[0].result.matchState, join3.results[0].result.matchState;
               && hs.Some? && js.Some?
               && hs.value.(lastSeen := 0) == js.value.(lastSeen := 0)
               && hs.value.advertiser == a && hs.value.matchId == m0
               && hs.value.claimsSeen == [(b, cb)] && hs.value.acksSeen == [b]
  {
    HostAdvertises(a, name, ca, hostCallback, t1);
    JoinerHearsAdvert(a, b, name, ca, t2, p1);
    JoinerClaims(a, b, name, ca, cb, joinCallback, t2, t3);
    HostAccepts(a, b, name, ca, cb, hostCallback, t1, t4, p2);
    JoinerAcked(a, b, name, ca, cb, joinCallback, t2, t3, t5, p3);
  }
}
