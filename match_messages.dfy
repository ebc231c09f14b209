/**
 * Match identifiers and the four matchmaking messages, with the JSON
 * objects they are published as (src/Matcher.ts:33-148).
 */
module MatchMessages {
  import opened Wrappers
  import opened Identity

  /**
   * `getMatchID`: the advertiser's key text followed by the match name.
   * The key text is a prefix of the identifier and the name is the rest.
   */
  function GetMatchID(advertiser: PublicKey, matchName: string): (id: string)
    ensures |id| == |advertiser.ToString()| + |matchName|
    ensures id[..|advertiser.ToString()|] == advertiser.ToString()
    ensures id[|advertiser.ToString()|..] == matchName
  {
    advertiser.ToString() + matchName
  }

  /** For one advertiser, different match names give different identifiers. */
  lemma GetMatchIDDeterminesName(advertiser: PublicKey, n1: string, n2: string)
    ensures GetMatchID(advertiser, n1) == GetMatchID(advertiser, n2) <==> n1 == n2
  {
    var k := |advertiser.ToString()|;
    if GetMatchID(advertiser, n1) == GetMatchID(advertiser, n2) {
      calc {
        n1;
        GetMatchID(advertiser, n1)[k..];
        GetMatchID(advertiser, n2)[k..];
        n2;
      }
    }
  }

  /** The four message kinds, one per pubsub channel. */
  datatype Message =
    | Advertise(advertiser: PublicKey, matchName: string, counter: int)
    | Unadvertise(matchId: string)
    | Claim(matchId: string, user: PublicKey, counter: int)
    | Ack(matchId: string, user: PublicKey)

  datatype Channel = AdvertiseChannel | UnadvertiseChannel | ClaimChannel | AckChannel

  /** The channel suffix each kind is published on (src/Matcher.ts:28-31). */
  function ChannelName(c: Channel): (name: string)
    ensures |name| > 7 && name[..7] == "-match-"
  {
    match c
    case AdvertiseChannel => "-match-advertise"
    case UnadvertiseChannel => "-match-unadvertise"
    case ClaimChannel => "-match-claim"
    case AckChannel => "-match-ack"
  }

  function ChannelOf(m: Message): Channel
  {
    match m
    case Advertise(_, _, _) => AdvertiseChannel
    case Unadvertise(_) => UnadvertiseChannel
    case Claim(_, _, _) => ClaimChannel
    case Ack(_, _) => AckChannel
  }

  /** The JSON values the messages use: strings and numbers. */
  datatype Json = JString(str: string) | JNumber(num: int)

  type JsonObject = map<string, Json>

  /** The field names each kind serialises. */
  function Fields(c: Channel): set<string>
  {
    match c
    case AdvertiseChannel => {"advertiser", "match", "counter"}
    case UnadvertiseChannel => {"matchId"}
    case ClaimChannel => {"matchId", "user", "counter"}
    case AckChannel => {"matchId", "user"}
  }

  function StringField(obj: JsonObject, name: string): Option<string>
  {
    if name in obj && obj[name].JString? then Some(obj[name].str) else None
  }

  function NumberField(obj: JsonObject, name: string): Option<int>
  {
    if name in obj && obj[name].JNumber? then Some(obj[name].num) else None
  }

  /**
   * `deserialise` of the kind published on channel `c`: keys are rebuilt
   * from their text, the other fields are copied.
   */
  function Deserialise(c: Channel, obj: JsonObject): (r: Option<Message>)
    ensures r.Some? ==> ChannelOf(r.value) == c
    ensures r.Some? <==>
      forall f :: f in Fields(c) ==> (f in obj && (obj[f].JNumber? <==> f == "counter"))
  {
    match c
    case AdvertiseChannel =>
      var a, n, k := StringField(obj, "advertiser"), StringField(obj, "match"), NumberField(obj, "counter");
      if a.Some? && n.Some? && k.Some? then Some(Advertise(PublicKey(a.value), n.value, k.value)) else None
    case UnadvertiseChannel =>
      var m := StringField(obj, "matchId");
      if m.Some? then Some(Unadvertise(m.value)) else None
    case ClaimChannel =>
      var m, u, k := StringField(obj, "matchId"), StringField(obj, "user"), NumberField(obj, "counter");
      if m.Some? && u.Some? && k.Some? then Some(Claim(m.value, PublicKey(u.value), k.value)) else None
    case AckChannel =>
      var m, u := StringField(obj, "matchId"), StringField(obj, "user");
      if m.Some? && u.Some? then Some(Ack(m.value, PublicKey(u.value))) else None
  }

  /**
   * `serialise`: keys become their text. Decoding the object on the
   * message's own channel gives the message back.
   */
  function Serialise(m: Message): (obj: JsonObject)
    ensures obj.Keys == Fields(ChannelOf(m))
    ensures Deserialise(ChannelOf(m), obj) == Some(m)
  {
    match m
    case Advertise(a, n, k) =>
      map["advertiser" := JString(a.ToString()), "match" := JString(n), "counter" := JNumber(k)]
    case Unadvertise(id) =>
      map["matchId" := JString(id)]
    case Claim(id, u, k) =>
      map["matchId" := JString(id), "user" := JString(u.ToString()), "counter" := JNumber(k)]
    case Ack(id, u) =>
      map["matchId" := JString(id), "user" := JString(u.ToString())]
  }

  /**
   * The other direction of the round trip: a decoded message serialises
   * back to the fields it was read from (extra fields are ignored).
   */
  lemma SerialiseDeserialise(c: Channel, obj: JsonObject)
    requires Deserialise(c, obj).Some?
    ensures var o := Serialise(Deserialise(c, obj).value);
            forall f :: f in o ==> f in obj && o[f] == obj[f]
  {
    var m := Deserialise(c, obj).value;
    assert forall f :: f in Fields(c) ==> f in obj;
  }
}
