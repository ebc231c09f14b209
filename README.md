# round-table core, modelled in Dafny

round-table lets game clients that share a peer-to-peer pubsub network
find each other. This project models and proves properties of four of its
parts.

- **The matchmaking protocol** (`src/Matcher.ts`):
  - the four messages (advertise, unadvertise, claim, ack) and their JSON
    form;
  - the `MatchState` record;
  - the `MatchStateManager`, which builds a picture of the adverts on the
    network;
  - the `MatchAgent` state machine, which joins somebody else's advert or
    hosts its own;
  - the `MatchManager`, which wires the two together and loops every
    published message back to its own state manager.
- **The chat log** (`src/Chat.ts`): the last 20 messages, each body cut
  to 160 characters.
- **The presence tracker** (`src/Presence.ts`): one record per peer,
  stamped with the time the peer was last seen.
- **The on-chain table program**, for its entry point and its two string
  lists (`contract/src/processor.rs`, `contract/src/instruction.rs`):
  - validation of the accounts and dispatch of the decoded instruction;
  - the custom error codes;
  - `str_buf_add` and `str_buf_rm`, which keep the bootstrap-server and
    channel lists as `;`-separated text in 512-byte, NUL-padded slices of
    the table account;
  - the client's reader for those slices (`src/Contract.ts:54-57`).

## Files

| file | content |
|---|---|
| `wrappers.dfy` | `Option` and `Result` |
| `identity.dfy` | `PublicKey`: a key is its text |
| `match_messages.dfy` | `getMatchID`, the four messages, `serialise`/`deserialise` |
| `match_state.dfy` | `MatchState`, `getCounter`, and the state manager's map updates as functions |
| `match_spec.dfy` | each Matcher event as a function on a snapshot of one client (`NodeView`) |
| `matcher.dfy` | the classes `MatchStateManager`, `MatchAgent` and `MatchManager`; each method is proved equal to its event function |
| `match_properties.dfy` | protocol properties proved on the event functions |
| `instruction.dfy` | `Errors` and the instruction variants |
| `table_buffer.dfy` | `str_buf_add`/`str_buf_rm` on an `array<byte>`, the client reader, the discrepancies below and corrected helpers |
| `processor.dfy` | `process_instruction` and the list handlers' choice of slice |
| `chat.dfy` | `ChatManager` |
| `presence.dfy` | `PeerPresence` and `PresenceManager` |

### How the Matcher is modelled

**Snapshots and ghost logs.** Matcher methods call each other
re-entrantly: a send loops back into the state manager, which tells the
agent, which may send again. Each class method is therefore proved equal
to a function of the client's snapshot before the call (`NodeView`: the
advert map, the listeners, the agent's fields). Ghost logs record:
- the messages published;
- the listener calls;
- the match callbacks called.

**Closures become identifiers.** Listener and callback closures are
represented by identifiers. The agent is the state manager's first
listener, as the `MatchManager` constructor registers it.

**Shuffled search.** The shuffled search in `startMatch` may settle on
any eligible advert. Each method that can reach it returns the choice
made as a ghost out-parameter `pick`, and a `*PickOk` predicate says the
choice was legal.

**Clock.** The clock is a parameter `now`.

### How the table program is modelled

**Bytes, not chars.** The text operations are modelled on bytes. Rust's
`trim_matches`, `contains` and `replace` on UTF-8 strings agree with
their byte-level counterparts, because `;` and NUL are single bytes and
a match between well-formed texts starts and ends on character
boundaries.

**The `unwrap` panics.** The two `String::from_utf8(..).unwrap()` calls
panic on malformed slices. Well-formedness, as defined in section 3.9 of
the Unicode Standard (Table 3-7), is therefore a precondition of
`StrBufAdd` and `StrBufRm`.

**List handlers.** The list handlers are modelled from the point where
their table-account check has passed.

## Model

| member | source | states |
|---|---|---|
| Identity.PublicKey.ToString | src/Presence.ts:59-64 | a key's text determines the key |
| Identity.ToStringInjective | src/Matcher.ts:33-35 | two keys have the same text exactly when they are the same key, so key text is a sound map key and match-identifier prefix |
| MatchMessages.GetMatchID | src/Matcher.ts:33-35 | the identifier is the advertiser's key text followed by the match name; given the advertiser, the name is the rest of the identifier (key texts vary in length and there is no separator, so the identifier alone does not fix where the key ends) |
| MatchMessages.GetMatchIDDeterminesName | src/Matcher.ts:33-35 | for one advertiser, different match names give different identifiers and equal identifiers mean equal names |
| MatchMessages.ChannelName | src/Matcher.ts:28-31 | every message channel name starts with `-match-` |
| MatchMessages.Deserialise | src/Matcher.ts:37-148 | decoding succeeds exactly when every field of the channel's message kind is present with its type (counter a number, the rest strings), and yields a message of that channel's kind |
| MatchMessages.Serialise | src/Matcher.ts:37-148 | the object has exactly the kind's fields, and decoding it on the message's own channel gives the message back |
| MatchMessages.SerialiseDeserialise | src/Matcher.ts:37-148 | the other direction of the round trip: a decoded message serialises back to the very fields it was read from |
| MatchStates.NewMatchState | src/Matcher.ts:161-174 | a new entry carries the advertiser, counter, name and time it was made with, its identifier is `getMatchID` of them, and no claim or ack is recorded |
| MatchStates.ClaimCounter | src/Matcher.ts:176-187 | the counter of the first claim by the user, or -1 when the user never claimed |
| MatchStates.CounterOf | src/Matcher.ts:176-187 | the advertiser's own counter for the advertiser, otherwise the counter of that user's first claim (-1 when there is none) |
| MatchStates.GetCounter | src/Matcher.ts:176-187 | the scanning loop returns exactly `CounterOf` |
| MatchStates.Advertised | src/Matcher.ts:198-207 | an advert adds or refreshes exactly its own entry: a new entry has the advert's advertiser, name and counter, no claims or acks, and is seen at `now`; a known entry keeps its claims, acks, advertiser, identifier and old counter and is seen at `now`; the map's invariant is kept |
| MatchStates.Claimed | src/Matcher.ts:216-228 | a claim by a user who already claimed changes nothing; a new claimant is appended last, so the first claimant never changes; only that entry's claims change (acks, advertiser, counter, name, identifier and last-seen time are kept); other entries are untouched |
| MatchStates.Acked | src/Matcher.ts:230-244 | an ack for an already acknowledged user changes nothing; a new one is appended last and only that entry's acks change (claims, advertiser, counter, name, identifier and last-seen time are kept); other entries are untouched |
| MatchStates.Expired | src/Matcher.ts:261-268 | an entry survives exactly when it was seen within `ADVERTISE_TIMEOUT` (15000 ms) of `now`, unchanged |
| MatchSpec.Cleared | src/Matcher.ts:305-310 | clearing makes the agent idle with no match, target or callback, and keeps its key, counter and last action time |
| MatchSpec.Fired | src/Matcher.ts:433-437 | the callback is called once with the result when one is set, and not at all otherwise |
| MatchSpec.Notify | src/Matcher.ts:250-259 | every registered listener is told, in registration order, about the current entry (or its absence), and nothing else changes |
| MatchSpec.AckLoopback | src/Matcher.ts:395-408 | when the host acks, the loop-back of that ack records it, tells the still-hosting agent again, and that inner call completes the match (second ack, advert removed, callback run with the acknowledged state); the outer call then finds the callback cleared |
| MatchSpec.ClaimWhileUnset | src/Matcher.ts:341-348 | a claim handled before the agent has set its match identifier is ignored by the agent: only the map and the other listeners see it |
| MatchSpec.Prepared | src/Matcher.ts:327-330 | `startMatch` takes the requested target and callback before searching |
| Matcher.HasClaimed | src/Matcher.ts:219-223 | the scan finds the user exactly when the user is among the claimants |
| Matcher.HasAcked | src/Matcher.ts:235-239 | the scan finds the user exactly when the user is among the acknowledged users |
| Matcher.MatchStateManager.constructor | src/Matcher.ts:190-196 | a new state manager knows no adverts and has no listeners |
| Matcher.MatchStateManager.HandleAdvertiseMessage | src/Matcher.ts:198-207 | the client's new snapshot is `AdvertiseHandled`: the advert recorded or refreshed, then an update raised for it |
| Matcher.MatchStateManager.HandleUnadvertiseMessage | src/Matcher.ts:209-214 | the advert's entry, if any, is dropped and nothing else changes |
| Matcher.MatchStateManager.HandleClaimMessage | src/Matcher.ts:216-228 | the new snapshot is `ClaimHandled`: a repeated claim changes nothing; a new one is recorded and an update raised |
| Matcher.MatchStateManager.HandleAckMessage | src/Matcher.ts:230-244 | the new snapshot is `AckHandled`: a repeated ack changes nothing; a new one is recorded, an update raised, then the advert dropped |
| Matcher.MatchStateManager.Remove | src/Matcher.ts:246-248 | exactly that entry is dropped |
| Matcher.MatchStateManager.RaiseUpdateEvent | src/Matcher.ts:250-259 | the agent reacts to the entry first, then every other listener is told, in order |
| Matcher.MatchStateManager.CheckTimeouts | src/Matcher.ts:261-268 | the map becomes `Expired(old map, now)`: exactly the stale adverts are dropped |
| Matcher.MatchStateManager.AddListener | src/Matcher.ts:270-272 | the listener is registered last |
| Matcher.MatchAgent.constructor | src/Matcher.ts:299-303 | a new agent is idle with the given key and counter, no target, match or callback, and has reported nothing |
| Matcher.MatchAgent.ClearState | src/Matcher.ts:305-310 | the agent's fields become `Cleared` of the old ones |
| Matcher.MatchAgent.MatchCallback | src/Matcher.ts:433-437 | the callback log grows by `Fired(callback, result)` |
| Matcher.MatchAgent.RestartMatch | src/Matcher.ts:312-318 | the new snapshot is `Restarted`: nothing happens unless the agent is busy with a non-empty target and a callback; otherwise it starts again with the same target, counter and callback |
| Matcher.MatchAgent.StartMatch | src/Matcher.ts:320-367 | it starts exactly when the agent was idle (otherwise nothing changes); the advert it joins is a legal pick, and the new snapshot is `Started` |
| Matcher.MatchAgent.JoinAdvert | src/Matcher.ts:337-350 | the new snapshot is `Joined`: the claim is published and recorded locally before the agent adopts the advert's identifier |
| Matcher.MatchAgent.HostMatch | src/Matcher.ts:353-366 | the new snapshot is `Hosted`: the agent adopts its own identifier and advertises, accepting at once a claim already recorded on that advert |
| Matcher.MatchAgent.StopMatch | src/Matcher.ts:369-386 | the new snapshot is `Stopped`: a host withdraws its advert, and a busy agent reports "no match" and clears |
| Matcher.MatchAgent.HandleMatchStateUpdate | src/Matcher.ts:388-431 | the new snapshot is `Reacted`: updates for other matches are ignored, a host accepts the first claim, and a joiner succeeds when first acknowledged and restarts otherwise |
| Matcher.MatchAgent.AcceptClaim | src/Matcher.ts:395-408 | the new snapshot is `ServeAccepted`, including the re-entrant completion caused by the looped-back ack |
| Matcher.MatchAgent.Poll | src/Matcher.ts:439-459 | the new snapshot is `Polled`: a host restarts after the rebroadcast timeout; a joiner restarts when its advert vanished, was acknowledged to somebody else, or (with no ack yet) after the ack timeout; otherwise nothing changes |
| Matcher.MatchManager.constructor | src/Matcher.ts:468-496 | a fresh client: the agent is wired as the state manager's listener, no adverts are known, the agent is idle, and no messages or reports exist |
| Matcher.MatchManager.Send | src/Matcher.ts:542-576 | the message is published and then handled locally, as if it had been received |
| Matcher.MatchManager.Receive | src/Matcher.ts:498-540 | a message that does not decode changes nothing; a decoded one is handled by its kind's handler |
| Matcher.MatchManager.Handle | src/Matcher.ts:498-540 | each message kind goes to its own state-manager handler |
| Matcher.MatchManager.AddMatchStateListener | src/Matcher.ts:578-580 | the listener is registered with the state manager, after the agent |
| MatchProperties.ServeAcceptedReports | src/Matcher.ts:395-408 | accepting a claim reports exactly once, a match, to the agent's callback, and leaves the agent idle and consistent |
| MatchProperties.HostedReports | src/Matcher.ts:353-366 | hosting leaves the agent consistent; it reports at most once, and reports exactly when it ends idle |
| MatchProperties.StartedKeepsAgentInv | src/Matcher.ts:320-367 | `startMatch` from idle leaves the agent consistent; it reports at most once, to the new callback, and exactly when it ends idle |
| MatchProperties.RestartedReports | src/Matcher.ts:312-318 | a restart keeps the agent consistent and reports at most once, to its callback |
| MatchProperties.ReactedReports | src/Matcher.ts:388-431 | reacting to any update keeps the agent consistent, reports at most once, and any busy agent that becomes idle has reported |
| MatchProperties.DeliveredReports | src/Matcher.ts:198-244 | whatever message arrives, the agent stays consistent and its callback is called at most once |
| MatchProperties.PolledReports | src/Matcher.ts:439-459 | polling keeps the agent consistent and reports at most once |
| MatchProperties.StoppedReportsNone | src/Matcher.ts:369-386 | stopping leaves the agent idle, and a busy agent reports exactly one "no match" |
| MatchProperties.HostAcceptsFirstClaimant | src/Matcher.ts:395-408 | a host acks the first claimant, drops the advert, goes idle, and reports a match in which that claimant is first and acknowledged |
| MatchProperties.JoinerFollowsFirstAck | src/Matcher.ts:410-425 | a joiner that is the first acknowledged user reports that state, drops the advert and goes idle; when someone else is first, it stops waiting on that advert |
| MatchProperties.JoinsOnlyOthersAdverts | src/Matcher.ts:335-350 | a joined advert is somebody else's, for the requested match and unacknowledged; the claim is published and recorded, and the agent waits on it |
| MatchProperties.HostsWhenNothingToJoin | src/Matcher.ts:352-366 | with nothing eligible, the client advertises its own match and either waits for claims or completes at once |
| MatchProperties.EmptyTargetNeverRestarts | src/Matcher.ts:312-315 | an empty target is falsy, so `restartMatch` then does nothing |
| MatchProperties.FreshClient | src/Matcher.ts:468-496 | a new client's agent is consistent and knows no adverts |
| MatchProperties.HostAdvertises | src/Matcher.ts:353-366 | a fresh host's `startMatch` publishes one advert, records it and waits for claims |
| MatchProperties.JoinerHearsAdvert | src/Matcher.ts:198-207 | a fresh client that hears an advert records it and does nothing else |
| MatchProperties.JoinerClaims | src/Matcher.ts:337-350 | a joiner that knows only that advert joins it: it publishes one claim, records itself as the claimant and waits for the ack |
| MatchProperties.HostAccepts | src/Matcher.ts:216-228 | the host that hears that claim acks it (twice, through the loop-back), drops its advert, goes idle, and reports the match with the joiner as claimant and acknowledged user |
| MatchProperties.JoinerAcked | src/Matcher.ts:230-244 | the joiner that hears the ack drops the advert, goes idle, and reports the same match |
| MatchProperties.TwoClientsMatch | src/Matcher.ts:320-431 | two clients looking for the same match end up in it together: both end idle, each callback is called once, and both report the same match, advertised by the host, with the joiner as its only claimant and only acknowledged user |
| Instruction.ErrorCode | contract/src/instruction.rs:51-63 | every error has a code from 0 to 10 that reads back to that error |
| Instruction.ErrorCodesDistinct | contract/src/processor.rs:11-13 | `error()` gives distinct errors distinct custom codes, and exactly the codes 0 to 10 name an error |
| Processor.DispatchIsExact | contract/src/processor.rs:301-310 | every instruction variant goes to the one handler that serves it, and a handler serves only its own variant |
| Processor.ProcessInstruction | contract/src/processor.rs:266-311 | each base-account or decoding error is returned exactly when its check is the first to fail; the call succeeds exactly when all four checks pass, and then carries accounts 0 and 1 and the rest as context, the decoded instruction, and the handler `HandlerOf` the instruction, the one that serves it |
| Processor.SliceOf | contract/src/processor.rs:139-185 | each list is a 512-byte slice within the first 1024 bytes of the table data; the channel instructions use 512..1024, the bootstrap instructions 0..512 |
| Processor.ApplyListInstruction | contract/src/processor.rs:139-185 | only the instruction's own slice changes; it is refused (data unchanged) or rewritten exactly as `str_buf_add`/`str_buf_rm` would |
| TableBuffer.AsciiPrefix | contract/src/processor.rs:47-48 | an ASCII prefix does not change whether a text is well-formed UTF-8 |
| TableBuffer.ValidAppend | contract/src/processor.rs:54-55 | concatenating well-formed texts gives a well-formed text |
| TableBuffer.ValidSplitBeforeAscii | contract/src/processor.rs:77 | cutting well-formed text just before an ASCII byte leaves two well-formed texts |
| TableBuffer.LeadingNuls | contract/src/processor.rs:47 | the number of leading NULs: all of them are NUL and the next byte is not |
| TableBuffer.TrailingNuls | contract/src/processor.rs:47 | the number of trailing NULs: all of them are NUL and the byte before is not |
| TableBuffer.TrimNul | contract/src/processor.rs:47-48 | trimming gives the text between the NUL runs at the ends: everything outside it is NUL, it neither starts nor ends with NUL, and it is empty exactly when the input is all NUL |
| TableBuffer.TrimNulValid | contract/src/processor.rs:47-48 | trimming keeps a text well-formed |
| TableBuffer.Contains | contract/src/processor.rs:50 | the scan answers true exactly when the pattern occurs at some offset |
| TableBuffer.RemoveAll | contract/src/processor.rs:77 | deletion never lengthens the text, leaves a text without an occurrence unchanged, and shortens it by at least the pattern when the text starts with the pattern |
| TableBuffer.Padded | contract/src/processor.rs:58-64 | the written slice always has the slice's length |
| TableBuffer.PaddedFits | contract/src/processor.rs:58-64 | content that fits is written whole and followed by NUL bytes |
| TableBuffer.Split | src/Contract.ts:54-55 | splitting at `;` gives at least one piece, no piece holds `;`, and joining the pieces back gives the text |
| TableBuffer.SplitLacks | src/Contract.ts:54-55 | a byte the text lacks is in none of its pieces |
| TableBuffer.RemoveNuls | src/Contract.ts:54-55 | dropping NULs leaves no NUL, never lengthens, and leaves a NUL-free text unchanged |
| TableBuffer.ClientEntries | src/Contract.ts:54-57 | the client's entries never hold `;` or NUL |
| TableBuffer.ClientEntriesOfTrimmed | src/Contract.ts:54-57 | the client reads the same entries from a slice as from its trimmed contents |
| TableBuffer.SplitAppend | src/Contract.ts:54-55 | appending `;` and a separator-free piece adds exactly that piece |
| TableBuffer.SplitJoin | src/Contract.ts:54-57 | reading back joined separator-free entries gives an empty first piece followed by the entries |
| TableBuffer.ClientEntriesOfJoin | src/Contract.ts:54-57 | whatever separator-free first piece precedes the joined entries and whatever NUL padding follows them, the client reads exactly the entries |
| TableBuffer.WritePadded | contract/src/processor.rs:58-64 | the copy loop writes the bytes, cut to the slice and NUL-padded, into exactly that slice |
| TableBuffer.StrBufAdd | contract/src/processor.rs:46-67 | a refusal returns the helper's error and leaves the data unchanged; on acceptance only the slice changes, to `StrBufAdded` of its old contents |
| TableBuffer.StrBufRm | contract/src/processor.rs:69-89 | a refusal returns the helper's error and leaves the data unchanged; on acceptance only the slice changes, to `StrBufRemoved` of its old contents |
| TableBuffer.StrBufAddedOutcome | contract/src/processor.rs:46-67 | the add is refused, with `EntryAlreadyExists`, exactly when the trimmed argument occurs in the trimmed contents (so an all-NUL argument is always refused); an accepted add keeps the slice length |
| TableBuffer.AppendEntryReads | contract/src/processor.rs:54-64 | when the new text fits and the entry holds neither `;` nor NUL, the client reads the old entries followed by the new one |
| TableBuffer.StrBufAddAppends | contract/src/processor.rs:46-67 | an accepted add of a fitting entry free of `;` and NUL appends exactly that entry to what the client reads |
| TableBuffer.StrBufRmFits | contract/src/processor.rs:77-86 | after a removal the slice holds the whole deletion result followed by NUL bytes |
| TableBuffer.TrimNulOf | contract/src/processor.rs:47 | trimming a text framed by NUL runs gives the text, when the text neither starts nor ends with NUL |
| TableBuffer.RmSubstringCorruptsNeighbour | contract/src/processor.rs:73-77 | see Findings |
| TableBuffer.RmEmptyMergesEntries | contract/src/processor.rs:71-77 | see Findings |
| TableBuffer.AddRefusesSubstring | contract/src/processor.rs:50-52 | see Findings |
| TableBuffer.AbsentByteNotContained | contract/src/processor.rs:50 | a pattern holding a byte the text lacks is not contained in it |
| TableBuffer.AddLetterEntry | contract/src/processor.rs:46-67 | adding a 128-byte argument of 111 copies of a letter the 512-byte slice's contents lack is accepted and appends `;` and the letters |
| TableBuffer.FourEntriesAdded | contract/src/processor.rs:46-67 | from an empty 512-byte slice, four adds of 128-byte arguments (111 × `a`, `b`, `c`, `d`) are each accepted and fill 448 bytes |
| TableBuffer.FourEntriesValid | contract/src/processor.rs:48-49 | every slice and argument of those four adds is well-formed UTF-8, so their `unwrap`s do not panic |
| TableBuffer.AddCutsCharacter | contract/src/processor.rs:54-64 | on a slice holding 448 ASCII bytes, adding 62 × `e` then `é` (NUL-padded to 128 bytes) is accepted and the 513-byte text is cut between the two bytes of `é` |
| TableBuffer.AddTruncationBreaksUtf8 | contract/src/processor.rs:54-64 | see Findings |
| TableBuffer.Without | contract/src/processor.rs:77 | the list without an entry holds exactly the other entries and joins to no longer a text |
| TableBuffer.AddEntryAppends | contract/src/processor.rs:46-67 | the corrected add refuses with `EntryAlreadyExists` exactly an empty or already-listed entry; on success the client reads the old entries followed by the new one, and the slice keeps its length and stays well-formed |
| TableBuffer.RemoveEntryRemoves | contract/src/processor.rs:69-89 | the corrected remove refuses with `EntryDoesntExist` exactly an argument that is not an entry; on success the client reads the old list without that entry, and the slice keeps its length |
| TableBuffer.RemoveEntryRefusesSubstring | contract/src/processor.rs:73-77 | the corrected remove refuses an argument that is only part of an entry |
| Chat.Sanitise | src/Chat.ts:9-11 | the body is the first 160 characters of the input, or all of it when shorter |
| Chat.Pushed | src/Chat.ts:54-58 | the new message is last; the log grows by one until it holds 20, and from then on the oldest message goes |
| Chat.LogKeepsLastMessages | src/Chat.ts:54-58 | from a log within the bound, any run of arrivals leaves exactly the last 20 messages of old log plus arrivals, in order |
| Chat.Calls | src/Chat.ts:59-61 | one listener call per registered listener, in registration order, each with the message |
| Chat.ChatManager.constructor | src/Chat.ts:38-46 | a new chat client has an empty log and no listeners |
| Chat.ChatManager.HandleMessage | src/Chat.ts:54-62 | the log becomes `Pushed(old log, message)` and stays within 20 entries; then every listener is called once with the message, in order |
| Chat.ChatManager.GetChatLog | src/Chat.ts:64-66 | returns the log, at most 20 messages |
| Chat.ChatManager.SendChatMessage | src/Chat.ts:68-73 | publishes the message with this client's key text, the sanitised body and the given time, then logs it and calls the listeners as on arrival |
| Chat.ChatManager.AddChatListener | src/Chat.ts:75-77 | the listener is registered last |
| Presence.PeerPresence.constructor | src/Presence.ts:24-29 | a new peer record has never been seen (time 0) |
| Presence.PeerPresence.SetLastSeen | src/Presence.ts:31-33 | the record is stamped with the given time |
| Presence.PresenceManager.constructor | src/Presence.ts:42-51 | a new tracker knows no peers |
| Presence.PresenceManager.PeersDistinct | src/Presence.ts:59-64 | records stored under different keys are different objects |
| Presence.PresenceManager.HandleObservation | src/Presence.ts:59-64 | the user's key is added if new, with a fresh record for that user; only that record's time changes, to `now`; no existing record is replaced |
| Presence.PresenceManager.PeersListed | src/Presence.ts:66-72 | looking up distinct keys that cover the map lists every record once |
| Presence.PresenceManager.GetPeers | src/Presence.ts:66-72 | every stored record, each exactly once |

## Left out

**Transport and encoding**
- Pubsub transport: subscribing, publishing on the network and delivery
  to other clients are not modelled. A publication is a ghost log entry.
  Receiving is a call with the decoded JSON object.
- Text encoding: `TextEncoder`/`TextDecoder` and `JSON.stringify`/`parse`
  are not modelled. JSON objects are maps from field names to strings or
  numbers.
- Timers: the `setInterval` timers of the `MatchManager` constructor are
  left out. `poll` and `checkTimeouts` are methods that take the time.
- Logging: `console.log`, and the `try`/`catch` blocks that only log a
  listener's or callback's exception, are left out. Listeners and
  callbacks are modelled as not throwing.
- Re-entrant callbacks: listeners and match callbacks are identifiers,
  so the model assumes they never call back into the client. In the
  source `_matchCallback` runs before `clearState`
  (`src/Matcher.ts:380-384`, `405-410`, `417-422`). A callback that calls
  `startMatch` there gets `false`, because the agent is still busy. A
  callback that calls `stopMatch` there publishes an Unadvertise, and
  the callback is then called a second time, with `null`. The "reports
  at most once" conjuncts of MatchProperties.ServeAcceptedReports,
  MatchProperties.ReactedReports and MatchProperties.DeliveredReports
  hold only under this assumption.

**Matcher**
- Shuffle: the shuffle in `startMatch` is not modelled. Any eligible
  advert may be picked, constrained by `StartPickOk`.
- Object identity: the live `MatchState` object shared between the map
  and the listeners is modelled as a value. A listener always sees the
  entry as it is at that moment, which matches the source because no
  listener keeps the object.
- `checkTimeouts`: it reads the clock itself and ignores its `time`
  argument. The model takes that reading as `now`.
- MatchMessages.Deserialise: it is stricter than the source, and it
  assumes every key text received is canonical base58.
  - It rejects an object with a missing field. The source's `deserialise`
    would build a message holding `undefined`, or throw on
    `new PublicKey(undefined)`, and the caller's `catch` drops it.
  - It rejects a field of the wrong JSON type, e.g. `counter: "3"` or
    `match: 5`. The source copies such a field unchanged, so
    `handleClaimMessage` would record a string counter.
  - It accepts any text as a key. The source's `new PublicKey(text)`
    throws on text that is not base58, and the message is dropped. For
    other non-canonical text it builds a key whose `toString()` differs
    from the text received, which changes `getMatchID`.
  - JSON numbers are modelled as integers.

**Table program**
- Processor.ProcessInstruction: the Borsh decoding of the instruction
  bytes is a parameter (`decoded`), not modelled.
- `init_table`, `delete_table`, `add_seat` and `remove_seat`: the handlers
  themselves are not part of this model. Their account-derivation and
  rent logic needs the Solana runtime. Dispatch to them is modelled.
- `check_table_account`: this check in the list handlers is not modelled.
  Processor.ApplyListInstruction starts once it has passed.
- TableBuffer.StrBufAdd: well-formed UTF-8 of the slice and the argument
  is required instead of modelling the `unwrap` panic.
- TableBuffer.StrBufRm: well-formed UTF-8 of the slice and the argument
  is required instead of modelling the `unwrap` panic.
- Processor.ApplyListInstruction: it calls the helpers as written. The
  corrected `AddEntry`/`RemoveEntry` are stated and proved beside them.
- Client reader: `src/Contract.ts` works on the decoded JavaScript string.
  The model drops NULs and splits on the bytes, which agrees for
  well-formed slices.

**Chat and presence**
- Chat.Sanitise: it counts Dafny characters. JavaScript's `slice(0, 160)`
  counts UTF-16 code units.
- Chat.ChatManager.SendChatMessage: `toLocaleTimeString()` is the `time`
  parameter.
- Chat.ChatManager.GetChatLog: it returns the log as a value. The source
  returns the live array. `handleMessage` pushes onto that array in place
  (`src/Chat.ts:55`), so a caller's reference keeps growing until the
  first `slice(1)` replaces the array. That aliasing is not modelled.
- Presence.PresenceManager.GetPeers: it does not fix the order of the
  result. JavaScript lists object keys in insertion order; the model
  promises each record exactly once, in some order.
- Presence.PresenceManager.HandleObservation: the clock reading is the
  `now` parameter. The peer map is a Dafny map, not a JavaScript object.
  A user text such as `constructor` or `__proto__` finds an inherited
  property in the source, which then stamps that property instead of
  adding an entry. The model adds the entry, as it does for any key text
  (the same canonical-base58 assumption as MatchMessages.Deserialise).

## Findings

| source | as written | input that shows it | evidently intended | confidence | as-written member | corrected member |
|---|---|---|---|---|---|---|
| contract/src/processor.rs:73-77 | `str_buf_rm` accepts any argument that occurs anywhere in the list text, then deletes every `;` followed by it | list `;ab;c`, remove `a`: accepted, slice becomes `b;c`, the client reads `[c]` and entry `ab` is destroyed | remove only a listed entry, refuse anything else with `EntryDoesntExist` | not executed | TableBuffer.RmSubstringCorruptsNeighbour | TableBuffer.RemoveEntryRemoves |
| contract/src/processor.rs:71-77 | an all-NUL argument trims to the empty text, which every list contains, and deleting `;` plus nothing deletes every separator | list `;a;b`, remove `\0\0`: accepted, slice becomes `ab`, the client reads `[]` | an empty argument names no entry and is refused | not executed | TableBuffer.RmEmptyMergesEntries | TableBuffer.RemoveEntryRemoves |
| contract/src/processor.rs:50-52 | `str_buf_add` refuses any argument that occurs anywhere in the list text | list `;ab`, add `a`: refused with `EntryAlreadyExists` although `a` is not an entry | refuse only an entry already listed | not executed | TableBuffer.AddRefusesSubstring | TableBuffer.AddEntryAppends |
| contract/src/processor.rs:54-64 | the new text is cut at the slice length, which can split a multi-byte character; the next `from_utf8(..).unwrap()` on that slice panics | empty 512-byte slice; add the 128-byte arguments 111 × `a`, 111 × `b`, 111 × `c`, 111 × `d` (each NUL-padded), which fill 448 bytes; then add 62 × `e` followed by `é` (C3 A9), NUL-padded to 128 bytes: accepted, the slice ends in a lone C3 byte | refuse an entry that does not fit (the corrected add returns `Error`) | not executed | TableBuffer.AddTruncationBreaksUtf8 | TableBuffer.AddEntryAppends |
