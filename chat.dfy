/**
 * The chat client (src/Chat.ts): a log of the last 20 messages seen on the
 * chat channel, and listeners told of each message. Publishing is
 * recorded in a ghost log; the pubsub subscription and the JSON and text
 * encodings are not modelled.
 */
module Chat {
  import opened Identity

  /** Longest message body kept by `sanitise`. */
  const MAX_MESSAGE: nat := 160

  /** Number of messages the log keeps. */
  const ENTRIES: nat := 20

  datatype ChatMessage = ChatMessage(user: string, msg: string, time: string)

  /** Listeners are told apart by an identifier; calling one is recorded. */
  type ChatListenerId = nat

  /** `sanitise`: the first 160 characters of the input, or all of it when shorter. */
  function Sanitise(unsafe: string): (r: string)
    ensures |r| == if |unsafe| < MAX_MESSAGE then |unsafe| else MAX_MESSAGE
    ensures r == unsafe[..|r|]
  {
    if |unsafe| <= MAX_MESSAGE then unsafe else unsafe[..MAX_MESSAGE]
  }

  /**
   * The log after one message arrives: the message is appended and, when
   * that makes the log longer than 20, the single oldest message goes.
   * The result is a suffix of the old log followed by the message.
   */
  function Pushed(log: seq<ChatMessage>, m: ChatMessage): (r: seq<ChatMessage>)
    ensures |r| == if |log| + 1 > ENTRIES then |log| else |log| + 1
    ensures r == (log + [m])[|log| + 1 - |r|..]
    ensures r[|r| - 1] == m
  {
    var pushed := log + [m];
    if |pushed| > ENTRIES then pushed[1..] else pushed
  }

  /** The log after a sequence of messages arrives, oldest first. */
  function PushedAll(log: seq<ChatMessage>, ms: seq<ChatMessage>): seq<ChatMessage>
    decreases |ms|
  {
    if ms == [] then log else Pushed(PushedAll(log, ms[..|ms| - 1]), ms[|ms| - 1])
  }

  /** The last `n` elements of `s` (all of them when there are fewer). */
  function Last(s: seq<ChatMessage>, n: nat): (r: seq<ChatMessage>)
    ensures |r| == if |s| < n then |s| else n
  {
    if |s| <= n then s else s[|s| - n..]
  }

  /**
   * From a log within the bound, any run of messages leaves exactly the
   * last 20 of the old log followed by the new messages, in arrival order.
   */
  lemma {:induction false} LogKeepsLastMessages(log: seq<ChatMessage>, ms: seq<ChatMessage>)
    requires |log| <= ENTRIES
    ensures PushedAll(log, ms) == Last(log + ms, ENTRIES)
    decreases |ms|
  {
    if ms != [] {
      var init := ms[..|ms| - 1];
      var m := ms[|ms| - 1];
      LogKeepsLastMessages(log, init);
      assert ms == init + [m];
      assert log + ms == (log + init) + [m];
    } else {
      assert log + ms == log;
    }
  }

  /** Listener calls, in registration order. */
  function Calls(listeners: seq<ChatListenerId>, m: ChatMessage): (r: seq<(ChatListenerId, ChatMessage)>)
    ensures |r| == |listeners|
    ensures forall i :: 0 <= i < |r| ==> r[i] == (listeners[i], m)
    decreases |listeners|
  {
    if listeners == [] then [] else Calls(listeners[..|listeners| - 1], m) + [(listeners[|listeners| - 1], m)]
  }

  class ChatManager {
    const id: PublicKey
    const netName: string
    var chatLog: seq<ChatMessage>
    var listeners: seq<ChatListenerId>
    /** Every listener call made, oldest first. */
    ghost var delivered: seq<(ChatListenerId, ChatMessage)>
    /** Every message published on the chat channel. */
    ghost var published: seq<ChatMessage>

    ghost predicate Valid()
      reads this
    {
      |chatLog| <= ENTRIES
    }

    constructor(netName: string, id: PublicKey)
      ensures Valid()
      ensures this.id == id && this.netName == netName
      ensures chatLog == [] && listeners == [] && delivered == [] && published == []
    {
      this.id := id;
      this.netName := netName;
      chatLog := [];
      listeners := [];
      delivered := [];
      published := [];
    }

    /** `handleMessage`: log the message, then tell every listener. */
    method HandleMessage(pMsg: ChatMessage)
      modifies this`chatLog, this`delivered
      ensures chatLog == Pushed(old(chatLog), pMsg)
      ensures old(Valid()) ==> Valid()
      ensures delivered == old(delivered) + Calls(listeners, pMsg)
    {
      ghost var expected := Pushed(chatLog, pMsg);
      chatLog := chatLog + [pMsg];
      if |chatLog| > ENTRIES {
        chatLog := chatLog[1..];
      }
      var m := 0;
      while m < |listeners|
        invariant 0 <= m <= |listeners|
        invariant chatLog == expected
        invariant delivered == old(delivered) + Calls(listeners[..m], pMsg)
      {
        assert listeners[..m + 1][..m] == listeners[..m];
        delivered := delivered + [(listeners[m], pMsg)];
        m := m + 1;
      }
      assert listeners[..m] == listeners;
    }

    /** `getChatLog`. */
    method GetChatLog() returns (log: seq<ChatMessage>)
      ensures log == chatLog
      ensures Valid() ==> |log| <= ENTRIES
    {
      log := chatLog;
    }

    /**
     * `sendChatMessage`: publish the sanitised message signed with this
     * client's key and stamped with `time`, then log it locally.
     */
    method SendChatMessage(msg: string, time: string)
      modifies this`chatLog, this`delivered, this`published
      ensures var sent := ChatMessage(id.ToString(), Sanitise(msg), time);
        published == old(published) + [sent]
        && chatLog == Pushed(old(chatLog), sent)
        && delivered == old(delivered) + Calls(listeners, sent)
      ensures old(Valid()) ==> Valid()
    {
      var chatMsg := ChatMessage(id.ToString(), Sanitise(msg), time);
      published := published + [chatMsg];
      HandleMessage(chatMsg);
    }

    /** `addChatListener`. */
    method AddChatListener(listener: ChatListenerId)
      modifies this`listeners
      ensures listeners == old(listeners) + [listener]
    {
      listeners := listeners + [listener];
    }
  }
}
