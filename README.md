# Admission and session core of the chat relay

The chat server (`server.js`) lets a participant in only after a human
operator allows it. A connecting socket asks for access under a display
name. The server files the socket in `pendingUsers` under the name's
canonical key, `name.trim().toLowerCase()`. The operator types
`allow <key>`, `deny <key>` or `kick <key>` at the console. `allow`
authorizes the socket and moves the key into `activeUsers`. Only an
authorized socket's chat messages are broadcast and stored. A disconnect
removes the name from both registries and announces it.

This project models that state machine in Dafny and proves properties of it.

- `wrappers.dfy`: `Option`, which stands for JavaScript `undefined`.
- `names.dfy` (module `Names`): `String.prototype.trim` and `toLowerCase`,
  and the canonical key.
- `commands.dfy` (module `Commands`): the console parser. The trimmed line
  is cut at each single space; the first piece is the verb, and the other
  pieces, rejoined with single spaces and lower-cased, are the target.
- `ordered_map.dfy` (module `OrderedMap`): a JavaScript `Map` as an
  association list in insertion order. This order is what `keys()` reports
  in `online-users`.
- `admission.dfy` (module `Admission`): the server state as a value and one
  transition function per handler. It also holds the invariant every
  reachable state keeps, and the fact that nothing emitted or authorized is
  ever taken back.
- `server.dfy` (module `ChatServer`): class `Server`. Its fields are the two
  registries, the socket fields and the emitted events. Its methods update
  them in place, statement by statement, as the handlers do. Each method is
  proved to reach the state the matching `Admission` transition describes,
  and to keep the invariant.
- `scenarios.dfy` (module `Scenarios`): properties over several events, and
  behaviours of the code as written that a reader might not expect.

Everything the server emits is an event appended to an ordered outbox:
- `permission-granted`, `permission-denied` and `kicked` to one socket;
- `targetSocket.disconnect()` as a request to the transport;
- `system` and `online-users` to everyone;
- the chat broadcast;
- the insert into the message store.

The code is modelled as written, including where it differs from what one
might expect of it:
- The two registries are not kept disjoint. An active participant that asks
  for access again is then both pending and active
  (`ActiveSocketCanBePendingToo`).
- `authorized` does not always agree with membership of `activeUsers`.
  `kick` removes the key but leaves the socket authorized
  (`KickedSocketStillPassesGate`).
- `allow` announces the active keys from before the newcomer is added
  (`AllowAnnouncesOldList`).
- `deny` and `kick` ask the transport to disconnect the socket. The model
  records that request as an event and runs the `disconnect` handler as a
  later, separate event. In that model, `kick` announces the active keys
  from before the removal (`KickAnnouncesOldList`). The transport in fact
  runs the `disconnect` handler synchronously inside `disconnect()`, which
  the model does not capture (see "## Left out").
- `disconnect` lower-cases the name but does not trim it. A name with
  surrounding whitespace therefore stays pending after its socket has gone
  (`UntrimmedNameOutlivesDisconnect`).
- The console splits on the single character `' '`, not on any whitespace.
  The first piece is the verb; the others, joined with single spaces and
  lower-cased, are the target.

## Model

| member | source | states |
|---|---|---|
| Names.LeadingSpaces | server.js:43 | the length of the leading whitespace run: every character in it is whitespace and the next one is not |
| Names.TrailingSpaces | server.js:43 | the length of the trailing whitespace run: every character in it is whitespace and the one before it is not |
| Names.Trim | server.js:43 | `trim()` is the infix of the name after the leading whitespace, followed only by whitespace, that neither starts nor ends with whitespace |
| Names.TrimFixedIff | server.js:43 | a string is its own trim exactly when it neither starts nor ends with whitespace |
| Names.TrimIdempotent | server.js:43 | trimming twice is trimming once |
| Names.ToLower | server.js:43 | `toLowerCase()` keeps the length, lowers each character and leaves no upper-case letter |
| Names.ToLowerIdempotent | server.js:43 | lower-casing twice is lower-casing once |
| Names.LeadingSpacesToLower | server.js:43 | lower-casing does not change the leading whitespace run |
| Names.TrailingSpacesToLower | server.js:43 | lower-casing does not change the trailing whitespace run |
| Names.TrimToLowerCommute | server.js:43 | trimming then lower-casing equals lower-casing then trimming |
| Names.Canonical | server.js:43 | the registry key is no longer than the name, already trimmed and already lower-case, so a key canonicalises to itself |
| Names.DisconnectKeyMatchesIff | server.js:73 | the key the disconnect handler deletes equals the key the name was filed under exactly when the name has no surrounding whitespace |
| Commands.IndexOfSpace | server.js:88 | the position of the first space: no space before it, a space at it unless it is the end |
| Commands.Split | server.js:88 | `split(" ")` gives at least one piece and no piece contains a space |
| Commands.JoinSplit | server.js:88-89 | joining the pieces of a split with single spaces gives the string back |
| Commands.SplitJoin | server.js:88-89 | splitting the join of space-free pieces gives the pieces back |
| Commands.SplitHeadTail | server.js:88-89 | the first piece is the text before the first space, and the other pieces rejoined are the text after it |
| Commands.ParseCommand | server.js:88-89 | the verb is the trimmed line up to its first space and contains no space; the target is the rest after that space, lower-cased, or empty when there is no space |
| Commands.SuggestedCommandParses | server.js:48 | the line the server suggests, `<verb> <key>`, parses back to exactly that verb and key for every display name |
| OrderedMap.Keys | server.js:79 | `Array.from(m.keys())` lists the key of every entry in insertion order |
| OrderedMap.DistinctIndices | server.js:20-21 | a map's keys are pairwise different at every two positions |
| OrderedMap.Get | server.js:92 | `get` is undefined exactly for an absent key, returns a value stored under the key, and in a map with unique keys the only one |
| OrderedMap.Set | server.js:45 | `set` keeps the key order when the key is present and appends the key when it is new, and keeps keys unique |
| OrderedMap.GetSet | server.js:45 | after `set(k, v)`, `k` maps to `v` and every other key maps to what it did before |
| OrderedMap.SetEntries | server.js:45 | `set(k, v)` adds no entry other than `(k, v)` |
| OrderedMap.Without | server.js:79 | the order-keeping filter, by definition; its contract: exactly the other keys, and still distinct |
| OrderedMap.Delete | server.js:74-75 | after `delete(k)` the key is absent, the remaining keys keep their order, no entry is added, unique keys stay unique, and deleting an absent key changes nothing |
| OrderedMap.GetDelete | server.js:74-75 | after `delete(k)`, `k` is undefined and every other key maps to what it did before |
| Admission.Connect | server.js:40 | a new socket starts without a name and unauthorized; nothing else changes and the invariant holds |
| Admission.RequestAccess | server.js:42-49 | the socket is filed under the canonical key, replacing any earlier socket there; a new key goes last; every other key, the active registry, the outbox and the other sockets are unchanged; the socket remembers the raw name |
| Admission.RequestAccessKeepsValid | server.js:42-49 | a request for access keeps the invariant |
| Admission.ChatMessage | server.js:51-69 | an unauthorized socket's message changes nothing; an authorized one appends one broadcast of its name, text and time, then one store request for the same record; registries and sockets never change |
| Admission.Disconnect | server.js:71-83 | with no name or an empty name nothing happens; otherwise the lower-cased untrimmed name leaves both registries, every other key is unchanged, and "<name> left the chat" then the remaining active keys are broadcast |
| Admission.Allow | server.js:91-105 | an absent target changes nothing; a pending target's socket becomes authorized, gets `permission-granted`, "<name> joined the chat" and the old active keys are broadcast, then the key is set in the active registry and deleted from the pending one |
| Admission.AllowMovesKey | server.js:99-100 | after `allow` on a pending target, its key maps to the target's socket in the active registry, keeps its place there or goes last, is gone from the pending registry, and every other key maps to what it did before in both |
| Admission.AllowKeepsValid | server.js:91-105 | `allow` keeps the invariant |
| Admission.Deny | server.js:106-114 | an absent target changes nothing; a pending target's socket gets `permission-denied` and a disconnect request, and its key leaves pending; everything else is unchanged and the invariant holds |
| Admission.Kick | server.js:115-127 | an absent target changes nothing; an active target's socket gets `kicked` and a disconnect request, the old active keys are broadcast, and the key leaves active while the other active keys keep their order and values; pending and every socket are unchanged and the invariant holds |
| Admission.HandleLine | server.js:87-128 | any verb other than `allow`, `deny` and `kick` leaves the whole state unchanged |
| Admission.HandleLineKeepsValid | server.js:87-128 | whatever line the operator types, the invariant holds afterwards |
| Admission.Step | server.js:27-128 | every handler run to completion keeps the invariant |
| Admission.StepGrows | server.js:27-128 | no handler removes an emitted event, forgets a socket or clears `authorized` |
| Admission.Run | server.js:27-128 | every state reached by a sequence of deliverable events keeps the invariant and extends the start state |
| Admission.InitValid | server.js:20-21 | the empty start state satisfies the invariant |
| Admission.ReachableValid | server.js:20-128 | every state reachable from the start satisfies the invariant |
| ChatServer.Server.constructor | server.js:20-21 | the server starts with both registries empty, no socket and nothing emitted |
| ChatServer.Server.Connect | server.js:40 | the new socket's id is fresh and the state is `Admission.Connect` of the old one |
| ChatServer.Server.RequestAccess | server.js:42-49 | the in-place update reaches `Admission.RequestAccess` of the old state and keeps the invariant |
| ChatServer.Server.ChatMessage | server.js:51-69 | the early return and the two emits reach `Admission.ChatMessage` of the old state |
| ChatServer.Server.Disconnect | server.js:71-83 | the two deletes and two emits reach `Admission.Disconnect` of the old state |
| ChatServer.Server.OnLine | server.js:87-128 | parsing and dispatching a line reaches `Admission.HandleLine` of the old state |
| ChatServer.Server.Allow | server.js:91-105 | the statements in source order reach `Admission.Allow` of the old state and keep the invariant |
| ChatServer.Server.Deny | server.js:106-114 | the statements in source order reach `Admission.Deny` of the old state |
| ChatServer.Server.Kick | server.js:115-127 | the statements in source order reach `Admission.Kick` of the old state |
| Scenarios.AdmittedMessageIsBroadcast | server.js:42-105 | after a request for access and the suggested `allow` line, the socket is active and authorized, its key is no longer pending, and its next message is broadcast under its raw name and then stored |
| Scenarios.SuggestedAllow | server.js:48 | typing the suggested `allow <key>` line runs `allow` on that key |
| Scenarios.SuggestedDeny | server.js:48 | typing the suggested `deny <key>` line runs `deny` on that key |
| Scenarios.PendingMessageIsDropped | server.js:42-52 | a socket that has asked for access but was never allowed emits nothing when it writes |
| Scenarios.LatestRequestWins | server.js:45 | of two sockets asking under the same key, `allow` authorizes only the later one |
| Scenarios.ActiveParticipantLeaves | server.js:71-83 | a participant whose name has no surrounding whitespace is in neither registry after it drops, and the last broadcast is the remaining active keys |
| Scenarios.UntrimmedNameOutlivesDisconnect | server.js:71-75 | a name with surrounding whitespace stays pending under its trimmed key after its socket disconnects |
| Scenarios.ActiveSocketCanBePendingToo | server.js:42-49 | an active participant that asks for access again is both pending and active |
| Scenarios.AllowAnnouncesOldList | server.js:96-99 | the key list `allow` broadcasts lacks the key it has just made active |
| Scenarios.KickAnnouncesOldList | server.js:120-122 | with the `disconnect` handler run as a later event, the key list `kick` broadcasts still holds the key it has just removed |
| Scenarios.KickedSocketStillPassesGate | server.js:115-123 | `kick` leaves the socket authorized; in the model, where a kicked socket can still raise events, its messages therefore still pass the gate and are broadcast and stored |
| Scenarios.KickThenDisconnect | server.js:115-127 | a kick followed, as a separate event, by the kicked socket's disconnect broadcasts "left the chat" exactly once and leaves the key inactive |
| Scenarios.CommandsAreIdempotent | server.js:91-127 | repeating `allow`, `deny` or `kick` on the same key changes nothing the second time |

## Left out

- The web server is not part of this model: Express, the static files, the `/` route and the listening socket (server.js:1-13, 23-25, 130-136). The console reader (server.js:15-18) is the source of the console lines.
- Chat history is not modelled. The message-store query on connection and `chat-history` (server.js:30-38) depend on an external database.
- The message store insert and its error logging (server.js:60-68) are not modelled. The model emits a store request event instead; whether the insert succeeds cannot be seen from the state machine.
- Time formatting is not modelled: `toLocaleTimeString` (server.js:54) reads the clock. The formatted time is a parameter.
- Console logging (server.js:47-48, 77, 101, 103, 112, 123, 125) is left out. It changes no state; the format of the suggested command line is modelled by `SuggestedCommandParses`.
- Transport delivery: `emit` and `disconnect()` are events in the outbox. The transport closing a socket afterwards, and raising no more events for it, is not modelled. Each handler runs to completion before the next event, except for the re-entry below.
- Admission.Kick: the server-side `disconnect()` (server.js:119) runs the `disconnect` handler (server.js:71-83) synchronously before server.js:120. The model runs that handler as a later event instead. So when the name lower-cases to the key, the program says "left the chat" during the kick and its key list already lacks the key; the model does not capture this.
- Admission.Deny: likewise, `disconnect()` (server.js:110) runs the `disconnect` handler, with its "left the chat" and key list, before server.js:111; the model runs it as a later event.
- Scenarios.KickAnnouncesOldList: holds of the model, where the `disconnect` handler runs after the kick; not of the program when the name lower-cases to the key.
- Scenarios.KickedSocketStillPassesGate: holds of the model only. In the program `disconnect()` at server.js:119 closes the socket inside the kick handler, and the transport raises no later `chat-message` event for it, so no message of a kicked socket reaches the gate at server.js:52.
- Scenarios.KickThenDisconnect: describes the kick and the disconnect as two separate events; the program interleaves them as described for Admission.Kick.
- Sockets are entries of a table keyed by a socket id, not heap objects shared by the registries. A registry holds the id; `socket.username` and `socket.authorized` are fields of the entry.
- Names.ToLower: lowers only the ASCII letters. The full Unicode case mapping of `toLowerCase`, including mappings that change the length, is not modelled.
- Message payloads and names are strings. The handlers receive JSON values, and a non-string `name` would make `trim()` throw; that path is not modelled.
- The password-checked remote admin channel has no code in this repository, so it is not part of this model.
- `testSupabase.js` is a connection test for the database client and is not part of this model.
