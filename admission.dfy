/**
 * The admission and session state machine of the chat server (server.js),
 * as a function from the state before an event to the state after it.
 *
 * The state is the two registries `pendingUsers` and `activeUsers`
 * (server.js:20-21), the fields the server keeps on each socket, and the
 * ordered log of everything the server emits. Each handler runs to
 * completion, so each event is one transition. A request to disconnect a
 * socket (server.js:110, 119) is an emitted event here, and the `disconnect`
 * handler it leads to is a later, separate event; the transport's re-entry
 * of that handler inside the call to `disconnect()` is not modelled.
 */
module Admission {
  import opened Wrappers
  import opened Names
  import opened Commands
  import opened OrderedMap

  /** A connection, as the transport identifies it. */
  type SocketId = nat

  /** The fields the server puts on a socket: `username` is set on a request
      for access (server.js:44), `authorized` starts false (server.js:40) and
      is set by `allow` (server.js:94). */
  datatype Session = Session(username: Option<string>, authorized: bool)

  /** What the server emits, in the order it emits it. */
  datatype Event =
    | PermissionGranted(to: SocketId)           // server.js:95
    | PermissionDenied(to: SocketId)            // server.js:109
    | Kicked(to: SocketId)                      // server.js:118
    | DisconnectRequested(to: SocketId)         // server.js:110, 119
    | System(text: string)                      // server.js:76, 96
    | OnlineUsers(users: seq<string>)           // server.js:79, 97, 120
    | ChatBroadcast(user: Option<string>, text: string, time: string)       // server.js:57
    | PersistRequest(username: Option<string>, text: string, time: string)  // server.js:61-63

  /** A registry: canonical key to socket, in insertion order. */
  type Registry = seq<(string, SocketId)>

  datatype State = State(
    pending: Registry,
    active: Registry,
    sockets: map<SocketId, Session>,
    outbox: seq<Event>)

  /** The server as it starts: both registries empty, no socket, nothing sent. */
  function Init(): State {
    State([], [], map[], [])
  }

  /** The text a JavaScript template literal makes of a value that may be `undefined`. */
  function Display(u: Option<string>): string {
    match u
    case Some(s) => s
    case None => "undefined"
  }

  /** JavaScript truthiness of `socket.username`: set and not empty. */
  predicate Truthy(u: Option<string>) {
    u.Some? && u.value != ""
  }

  /** Every pending entry refers to a socket the server knows. */
  ghost predicate PendingKnown(st: State) {
    forall e :: e in st.pending ==> e.1 in st.sockets
  }

  /** The invariant of every reachable state. Each registry is a map (no key
      twice); every pending socket has given a name; every active socket is
      authorized; an authorized socket has given a name. A key may well be in
      both registries, and an authorized socket need not be active. */
  ghost predicate Valid(st: State) {
    && UniqueKeys(st.pending)
    && UniqueKeys(st.active)
    && (forall e :: e in st.pending ==> e.1 in st.sockets && st.sockets[e.1].username.Some?)
    && (forall e :: e in st.active ==> e.1 in st.sockets && st.sockets[e.1].authorized)
    && (forall id :: id in st.sockets && st.sockets[id].authorized ==> st.sockets[id].username.Some?)
  }

  /** A new connection: the socket starts unauthorized and without a name (server.js:40). */
  function Connect(st: State, id: SocketId): (r: State)
    requires id !in st.sockets
    ensures r.sockets.Keys == st.sockets.Keys + {id}
    ensures r.sockets[id] == Session(None, false)
    ensures forall j :: j in st.sockets ==> r.sockets[j] == st.sockets[j]
    ensures r.pending == st.pending && r.active == st.active && r.outbox == st.outbox
    ensures Valid(st) ==> Valid(r)
  {
    st.(sockets := st.sockets[id := Session(None, false)])
  }

  /** `request-access` (server.js:42-49). The socket is stored in the pending
      registry under the canonical key of the name, replacing any socket stored
      there before; the socket remembers the raw name. Every other pending
      key, the active registry, the other sockets and the outbox are unchanged. */
  function RequestAccess(st: State, id: SocketId, name: string): (r: State)
    requires id in st.sockets
    ensures var key := Canonical(name);
      && Get(r.pending, key) == Some(id)
      && (forall k {:trigger Get(r.pending, k)} :: k != key ==> Get(r.pending, k) == Get(st.pending, k))
      && Keys(r.pending) == (if key in Keys(st.pending) then Keys(st.pending) else Keys(st.pending) + [key])
    ensures r.sockets == st.sockets[id := Session(Some(name), st.sockets[id].authorized)]
    ensures r.active == st.active && r.outbox == st.outbox
    ensures PendingKnown(st) ==> PendingKnown(r)
  {
    var key := Canonical(name);
    GetSet(st.pending, key, id);
    SetEntries(st.pending, key, id);
    st.(sockets := st.sockets[id := st.sockets[id].(username := Some(name))],
        pending := Set(st.pending, key, id))
  }

  /** A request for access keeps the invariant: the socket it files under the
      key has just been given a name, and no key appears twice. */
  lemma RequestAccessKeepsValid(st: State, id: SocketId, name: string)
    requires id in st.sockets
    requires Valid(st)
    ensures Valid(RequestAccess(st, id, name))
  {
    var key := Canonical(name);
    var r := RequestAccess(st, id, name);
    assert r.pending == Set(st.pending, key, id);
    SetEntries(st.pending, key, id);
    forall e | e in r.pending
      ensures e.1 in r.sockets && r.sockets[e.1].username.Some?
    {
      assert e in st.pending || e == (key, id);
    }
    forall e | e in r.active
      ensures e.1 in r.sockets && r.sockets[e.1].authorized
    {
      assert e in st.active;
    }
    forall j | j in r.sockets && r.sockets[j].authorized
      ensures r.sockets[j].username.Some?
    {
      assert j in st.sockets;
    }
  }

  /** `chat message` (server.js:51-69). A socket that is not authorized gets
      nothing broadcast and nothing stored; an authorized one gets exactly one
      broadcast of its name, the text and the time, followed by one request to
      store the same record. Registries and sockets never change. */
  function ChatMessage(st: State, id: SocketId, text: string, time: string): (r: State)
    requires id in st.sockets
    ensures r.pending == st.pending && r.active == st.active && r.sockets == st.sockets
    ensures !st.sockets[id].authorized ==> r.outbox == st.outbox
    ensures st.sockets[id].authorized ==> var u := st.sockets[id].username;
      r.outbox == st.outbox + [ChatBroadcast(u, text, time)] + [PersistRequest(u, text, time)]
    ensures Valid(st) ==> Valid(r)
  {
    var s := st.sockets[id];
    if !s.authorized then st
    else st.(outbox := st.outbox + [ChatBroadcast(s.username, text, time)] + [PersistRequest(s.username, text, time)])
  }

  /** `disconnect` (server.js:71-83). With no name, or the empty name, nothing
      happens. Otherwise the lower-cased (but not trimmed) name is deleted from
      both registries, every other key keeping its entry and its place; then
      "<name> left the chat" is broadcast, then the remaining active keys in
      insertion order. Sockets are unchanged. */
  function Disconnect(st: State, id: SocketId): (r: State)
    requires id in st.sockets
    ensures !Truthy(st.sockets[id].username) ==> r == st
    ensures Truthy(st.sockets[id].username) ==>
      var name := st.sockets[id].username.value;
      var key := ToLower(name);
      && key !in Keys(r.pending) && key !in Keys(r.active)
      && (forall k {:trigger Get(r.pending, k)} {:trigger Get(r.active, k)} :: k != key ==> Get(r.pending, k) == Get(st.pending, k) && Get(r.active, k) == Get(st.active, k))
      && Keys(r.pending) == Without(Keys(st.pending), key)
      && Keys(r.active) == Without(Keys(st.active), key)
      && r.sockets == st.sockets
      && r.outbox == st.outbox + [System(name + " left the chat")] + [OnlineUsers(Without(Keys(st.active), key))]
    ensures Valid(st) ==> Valid(r)
  {
    var u := st.sockets[id].username;
    if !Truthy(u) then st
    else
      var key := ToLower(u.value);
      var pending := Delete(st.pending, key);
      var active := Delete(st.active, key);
      GetDelete(st.pending, key);
      GetDelete(st.active, key);
      st.(pending := pending, active := active,
          outbox := st.outbox + [System(u.value + " left the chat")] + [OnlineUsers(Keys(active))])
  }

  /** `allow <target>` (server.js:91-105). A target that is not pending changes
      nothing and sends nothing. A pending target's socket becomes authorized;
      it is sent `permission-granted`, everyone is sent "<name> joined the chat"
      and then the active keys as they were BEFORE the target is added; then
      the target is set in the active registry and deleted from the pending
      one (AllowMovesKey says what each key maps to afterwards). */
  function Allow(st: State, target: string): (r: State)
    requires PendingKnown(st)
    ensures target !in Keys(st.pending) ==> r == st
    ensures target in Keys(st.pending) ==>
      var id := Get(st.pending, target).value;
      && id in st.sockets
      && r.sockets == st.sockets[id := Session(st.sockets[id].username, true)]
      && r.active == Set(st.active, target, id)
      && r.pending == Delete(st.pending, target)
      && r.outbox == st.outbox + [PermissionGranted(id)]
                             + [System(Display(st.sockets[id].username) + " joined the chat")]
                             + [OnlineUsers(Keys(st.active))]
  {
    match Get(st.pending, target)
    case None => st
    case Some(id) =>
      var s := st.sockets[id].(authorized := true);
      var active := Set(st.active, target, id);
      var pending := Delete(st.pending, target);
      st.(sockets := st.sockets[id := s],
          outbox := st.outbox + [PermissionGranted(id)] + [System(Display(s.username) + " joined the chat")]
                    + [OnlineUsers(Keys(st.active))],
          active := active,
          pending := pending)
  }

  /** `allow` on a pending target moves its key into the active registry:
      there it maps to the target's socket and keeps its place, or goes last
      if it is new; it is gone from the pending registry; every other key maps
      to what it did before in both. */
  lemma AllowMovesKey(st: State, target: string)
    requires PendingKnown(st) && target in Keys(st.pending)
    ensures var id := Get(st.pending, target).value;
      var r := Allow(st, target);
      && Get(r.active, target) == Some(id)
      && Keys(r.active) == (if target in Keys(st.active) then Keys(st.active) else Keys(st.active) + [target])
      && target !in Keys(r.pending)
      && (forall k {:trigger Get(r.pending, k)} {:trigger Get(r.active, k)} :: k != target ==> Get(r.pending, k) == Get(st.pending, k) && Get(r.active, k) == Get(st.active, k))
  {
    var id := Get(st.pending, target).value;
    GetSet(st.active, target, id);
    GetDelete(st.pending, target);
  }

  /** `allow` keeps the invariant: the socket it authorizes had a name. */
  lemma AllowKeepsValid(st: State, target: string)
    requires Valid(st)
    ensures Valid(Allow(st, target))
  {
    if target in Keys(st.pending) {
      var id := Get(st.pending, target).value;
      SetEntries(st.active, target, id);
    }
  }

  /** `deny <target>` (server.js:106-114). A target that is not pending changes
      nothing. A pending target's socket is sent `permission-denied` and then
      asked to disconnect, and the target leaves the pending registry. The
      active registry and every socket are unchanged. */
  function Deny(st: State, target: string): (r: State)
    ensures target !in Keys(st.pending) ==> r == st
    ensures target in Keys(st.pending) ==>
      var id := Get(st.pending, target).value;
      && target !in Keys(r.pending)
      && (forall k {:trigger Get(r.pending, k)} :: k != target ==> Get(r.pending, k) == Get(st.pending, k))
      && r.active == st.active && r.sockets == st.sockets
      && r.outbox == st.outbox + [PermissionDenied(id)] + [DisconnectRequested(id)]
    ensures Valid(st) ==> Valid(r)
  {
    match Get(st.pending, target)
    case None => st
    case Some(id) =>
      GetDelete(st.pending, target);
      st.(outbox := st.outbox + [PermissionDenied(id)] + [DisconnectRequested(id)],
          pending := Delete(st.pending, target))
  }

  /** `kick <target>` (server.js:115-127). A target that is not active changes
      nothing. An active target's socket is sent `kicked` and asked to
      disconnect, everyone is sent the active keys as they stand at that point
      (before the target is removed, the `disconnect` handler not having run),
      and then the target leaves the active registry, the other keys keeping
      their order. The pending registry and every socket, its `authorized`
      flag included, are unchanged. */
  function Kick(st: State, target: string): (r: State)
    ensures target !in Keys(st.active) ==> r == st
    ensures target in Keys(st.active) ==>
      var id := Get(st.active, target).value;
      && target !in Keys(r.active)
      && Keys(r.active) == Without(Keys(st.active), target)
      && (forall k {:trigger Get(r.active, k)} :: k != target ==> Get(r.active, k) == Get(st.active, k))
      && r.pending == st.pending && r.sockets == st.sockets
      && r.outbox == st.outbox + [Kicked(id)] + [DisconnectRequested(id)] + [OnlineUsers(Keys(st.active))]
    ensures Valid(st) ==> Valid(r)
  {
    match Get(st.active, target)
    case None => st
    case Some(id) =>
      GetDelete(st.active, target);
      st.(outbox := st.outbox + [Kicked(id)] + [DisconnectRequested(id)] + [OnlineUsers(Keys(st.active))],
          active := Delete(st.active, target))
  }

  /** A console line (server.js:87-128): parsed, then dispatched on its verb.
      Any verb other than `allow`, `deny` and `kick` leaves the whole state,
      outbox included, unchanged. */
  function HandleLine(st: State, line: string): (r: State)
    requires PendingKnown(st)
    ensures var verb := ParseCommand(line).verb;
      verb != "allow" && verb != "deny" && verb != "kick" ==> r == st
  {
    var c := ParseCommand(line);
    if c.verb == "allow" then Allow(st, c.target)
    else if c.verb == "deny" then Deny(st, c.target)
    else if c.verb == "kick" then Kick(st, c.target)
    else st
  }

  /** Whatever line the operator types, the invariant survives. */
  lemma HandleLineKeepsValid(st: State, line: string)
    requires Valid(st)
    ensures Valid(HandleLine(st, line))
  {
    var c := ParseCommand(line);
    if c.verb == "allow" {
      AllowKeepsValid(st, c.target);
    }
  }

  /** One event reaching the server: a socket event from the transport, or a
      line from the operator console. */
  datatype Input =
    | OnConnect(id: SocketId)
    | OnRequestAccess(id: SocketId, name: string)
    | OnChatMessage(id: SocketId, text: string, time: string)
    | OnDisconnect(id: SocketId)
    | OnConsoleLine(line: string)

  /** The events the transport can deliver in a state: a connection gets a
      socket that did not exist, and a socket event comes from an existing
      socket. Console lines can always arrive. */
  predicate Deliverable(st: State, input: Input) {
    match input
    case OnConnect(id) => id !in st.sockets
    case OnRequestAccess(id, _) => id in st.sockets
    case OnChatMessage(id, _, _) => id in st.sockets
    case OnDisconnect(id) => id in st.sockets
    case OnConsoleLine(_) => true
  }

  /** One handler run to completion; it keeps the invariant. */
  function Step(st: State, input: Input): (r: State)
    requires Valid(st) && Deliverable(st, input)
    ensures Valid(r)
  {
    match input
    case OnConnect(id) => Connect(st, id)
    case OnRequestAccess(id, name) => RequestAccessKeepsValid(st, id, name); RequestAccess(st, id, name)
    case OnChatMessage(id, text, time) => ChatMessage(st, id, text, time)
    case OnDisconnect(id) => Disconnect(st, id)
    case OnConsoleLine(line) => HandleLineKeepsValid(st, line); HandleLine(st, line)
  }

  /** What no handler undoes: the outbox is only appended to, no socket is
      forgotten, and no socket loses its authorization (not even by `kick`). */
  ghost predicate Grows(st: State, r: State) {
    && st.outbox <= r.outbox
    && st.sockets.Keys <= r.sockets.Keys
    && forall id :: id in st.sockets && st.sockets[id].authorized ==> id in r.sockets && r.sockets[id].authorized
  }

  lemma StepGrows(st: State, input: Input)
    requires Valid(st) && Deliverable(st, input)
    ensures Grows(st, Step(st, input))
  {
    match input
    case OnConnect(_) =>
    case OnRequestAccess(_, _) =>
    case OnChatMessage(id, _, _) =>
      if st.sockets[id].authorized {
        var r := Step(st, input);
        assert st.outbox <= r.outbox;
      }
    case OnDisconnect(id) =>
      if Truthy(st.sockets[id].username) {
        var r := Step(st, input);
        assert st.outbox <= r.outbox;
      }
    case OnConsoleLine(line) =>
      var c := ParseCommand(line);
      if c.verb == "allow" {
        AllowGrows(st, c.target);
      } else if c.verb == "deny" {
        DenyGrows(st, c.target);
      } else if c.verb == "kick" {
        KickGrows(st, c.target);
      }
  }

  lemma AllowGrows(st: State, target: string)
    requires PendingKnown(st)
    ensures Grows(st, Allow(st, target))
  {
    var r := Allow(st, target);
    if target in Keys(st.pending) {
      assert st.outbox <= r.outbox;
    }
  }

  lemma DenyGrows(st: State, target: string)
    ensures Grows(st, Deny(st, target))
  {
    var r := Deny(st, target);
    if target in Keys(st.pending) {
      assert st.outbox <= r.outbox;
    }
  }

  lemma KickGrows(st: State, target: string)
    ensures Grows(st, Kick(st, target))
  {
    var r := Kick(st, target);
    if target in Keys(st.active) {
      assert st.outbox <= r.outbox;
    }
  }

  /** The state after a sequence of events, or `None` if the transport could
      not have delivered one of them. Every state reached this way satisfies
      the invariant, and nothing emitted or authorized is ever taken back. */
  function Run(st: State, inputs: seq<Input>): (r: Option<State>)
    requires Valid(st)
    ensures r.Some? ==> Valid(r.value) && Grows(st, r.value)
    decreases |inputs|
  {
    if inputs == [] then Some(st)
    else if !Deliverable(st, inputs[0]) then None
    else
      StepGrows(st, inputs[0]);
      Run(Step(st, inputs[0]), inputs[1..])
  }

  /** The server starts in a state that satisfies the invariant. */
  lemma InitValid()
    ensures Valid(Init())
  {
  }

  /** Every state the server can reach from its start satisfies the invariant. */
  lemma ReachableValid(inputs: seq<Input>)
    ensures Run(Init(), inputs).Some? ==> Valid(Run(Init(), inputs).value)
  {
  }

}
