/**
 * The chat server's handlers as they run: the registries `pendingUsers` and
 * `activeUsers` (server.js:20-21), the socket fields and the emitted events
 * are fields of one object that each handler updates in place, statement by
 * statement in the order the handler does. Each handler is proved to leave
 * the object in the state the matching transition of `Admission` describes,
 * and to keep its invariant.
 */
module ChatServer {
  import opened Wrappers
  import opened Names
  import opened Commands
  import opened OrderedMap
  import opened Admission

  class Server {
    var pendingUsers: Registry
    var activeUsers: Registry
    /** The `username` and `authorized` fields of every socket. */
    var sockets: map<SocketId, Session>
    /** Everything emitted so far, in order. */
    var outbox: seq<Event>
    /** The id the next connection gets. */
    var nextId: SocketId

    /** The server's state as a value. */
    function Model(): State
      reads this
    {
      State(pendingUsers, activeUsers, sockets, outbox)
    }

    ghost predicate Valid()
      reads this
    {
      && Admission.Valid(Model())
      && forall id :: id in sockets ==> id < nextId
    }

    /** Server start: both registries empty, no connection. */
    constructor ()
      ensures Valid() && Model() == Init()
    {
      pendingUsers, activeUsers, sockets, outbox := [], [], map[], [];
      nextId := 0;
    }

    /** A connection opens (server.js:27, 40): a fresh socket, not authorized. */
    method Connect() returns (id: SocketId)
      requires Valid()
      modifies this
      ensures Valid()
      ensures id !in old(sockets)
      ensures Model() == Admission.Connect(old(Model()), id)
    {
      id := nextId;
      nextId := nextId + 1;
      sockets := sockets[id := Session(None, false)];
    }

    /** `request-access` (server.js:42-49). */
    method RequestAccess(id: SocketId, name: string)
      requires Valid() && id in sockets
      modifies this
      ensures Valid() && nextId == old(nextId)
      ensures Model() == Admission.RequestAccess(old(Model()), id, name)
    {
      ghost var before := Model();
      RequestAccessKeepsValid(before, id, name);
      var cleanName := Canonical(name);
      sockets := sockets[id := sockets[id].(username := Some(name))];
      pendingUsers := Set(pendingUsers, cleanName, id);
      assert Model() == Admission.RequestAccess(before, id, name);
      assert sockets.Keys == before.sockets.Keys;
    }

    /** `chat message` (server.js:51-69); `time` is the formatted wall-clock time. */
    method ChatMessage(id: SocketId, text: string, time: string)
      requires Valid() && id in sockets
      modifies this
      ensures Valid() && nextId == old(nextId)
      ensures Model() == Admission.ChatMessage(old(Model()), id, text, time)
    {
      if !sockets[id].authorized {
        return;
      }
      var user := sockets[id].username;
      outbox := outbox + [ChatBroadcast(user, text, time)];
      outbox := outbox + [PersistRequest(user, text, time)];
    }

    /** `disconnect` (server.js:71-83). */
    method Disconnect(id: SocketId)
      requires Valid() && id in sockets
      modifies this
      ensures Valid() && nextId == old(nextId)
      ensures Model() == Admission.Disconnect(old(Model()), id)
    {
      var username := sockets[id].username;
      if Truthy(username) {
        var cleanName := ToLower(username.value);
        pendingUsers := Delete(pendingUsers, cleanName);
        activeUsers := Delete(activeUsers, cleanName);
        outbox := outbox + [System(username.value + " left the chat")];
        outbox := outbox + [OnlineUsers(Keys(activeUsers))];
      }
    }

    /** A line typed at the operator console (server.js:87-128). */
    method OnLine(input: string)
      requires Valid()
      modifies this
      ensures Valid() && nextId == old(nextId)
      ensures Model() == HandleLine(old(Model()), input)
    {
      var command := ParseCommand(input);
      var targetName := command.target;
      if command.verb == "allow" {
        Allow(targetName);
      } else if command.verb == "deny" {
        Deny(targetName);
      } else if command.verb == "kick" {
        Kick(targetName);
      }
    }

    /** `allow <targetName>` (server.js:91-105). */
    method Allow(targetName: string)
      requires Valid()
      modifies this
      ensures Valid() && nextId == old(nextId)
      ensures Model() == Admission.Allow(old(Model()), targetName)
    {
      ghost var before := Model();
      AllowKeepsValid(before, targetName);
      var targetSocket := Get(pendingUsers, targetName);
      if targetSocket.Some? {
        var id := targetSocket.value;
        sockets := sockets[id := sockets[id].(authorized := true)];
        outbox := outbox + [PermissionGranted(id)];
        outbox := outbox + [System(Display(sockets[id].username) + " joined the chat")];
        outbox := outbox + [OnlineUsers(Keys(activeUsers))];
        activeUsers := Set(activeUsers, targetName, id);
        pendingUsers := Delete(pendingUsers, targetName);
        assert sockets.Keys == before.sockets.Keys;
        assert Model() == Admission.Allow(before, targetName);
      }
    }

    /** `deny <targetName>` (server.js:106-114). */
    method Deny(targetName: string)
      requires Valid()
      modifies this
      ensures Valid() && nextId == old(nextId)
      ensures Model() == Admission.Deny(old(Model()), targetName)
    {
      ghost var before := Model();
      var targetSocket := Get(pendingUsers, targetName);
      if targetSocket.Some? {
        var id := targetSocket.value;
        outbox := outbox + [PermissionDenied(id)];
        outbox := outbox + [DisconnectRequested(id)];
        pendingUsers := Delete(pendingUsers, targetName);
      }
      assert Model() == Admission.Deny(before, targetName);
    }

    /** `kick <targetName>` (server.js:115-127). */
    method Kick(targetName: string)
      requires Valid()
      modifies this
      ensures Valid() && nextId == old(nextId)
      ensures Model() == Admission.Kick(old(Model()), targetName)
    {
      ghost var before := Model();
      var targetSocket := Get(activeUsers, targetName);
      if targetSocket.Some? {
        var id := targetSocket.value;
        outbox := outbox + [Kicked(id)];
        outbox := outbox + [DisconnectRequested(id)];
        outbox := outbox + [OnlineUsers(Keys(activeUsers))];
        activeUsers := Delete(activeUsers, targetName);
      }
      assert Model() == Admission.Kick(before, targetName);
    }
  }

}
