/**
 * Properties of the admission state machine that span several events, and
 * the behaviours of the handlers as written that a reader might not expect.
 */
module Scenarios {
  import opened Wrappers
  import opened Names
  import opened Commands
  import opened OrderedMap
  import opened Admission

  /** A participant asks for access, the operator types the line the server
      suggested (`allow <key>`, server.js:48), and the participant's next
      message is broadcast under the name it gave, then stored. */
  lemma AdmittedMessageIsBroadcast(st: State, id: SocketId, name: string, text: string, time: string)
    requires Valid(st) && id in st.sockets
    ensures var s1 := RequestAccess(st, id, name);
      var s2 := HandleLine(s1, "allow " + Canonical(name));
      && id in s2.sockets && s2.sockets[id].authorized
      && Get(s2.active, Canonical(name)) == Some(id)
      && Canonical(name) !in Keys(s2.pending)
      && ChatMessage(s2, id, text, time).outbox
         == s2.outbox + [ChatBroadcast(Some(name), text, time)] + [PersistRequest(Some(name), text, time)]
  {
    var key := Canonical(name);
    var s1 := RequestAccess(st, id, name);
    RequestAccessKeepsValid(st, id, name);
    assert Get(s1.pending, key) == Some(id) && s1.sockets[id].username == Some(name);
    SuggestedAllow(s1, name);
    AllowMovesKey(s1, key);
    var s2 := Allow(s1, key);
    assert s2.sockets[id] == Session(Some(name), true);
  }

  /** The `allow` line the server suggests for a name runs `allow` on that name's key. */
  lemma SuggestedAllow(st: State, name: string)
    requires PendingKnown(st)
    ensures HandleLine(st, "allow " + Canonical(name)) == Allow(st, Canonical(name))
  {
    VerbsAreWords();
    SuggestedCommandParses("allow", name);
    assert "allow " == "allow" + " ";
  }

  /** The `deny` line the server suggests for a name runs `deny` on that name's key. */
  lemma SuggestedDeny(st: State, name: string)
    requires PendingKnown(st)
    ensures HandleLine(st, "deny " + Canonical(name)) == Deny(st, Canonical(name))
  {
    VerbsAreWords();
    SuggestedCommandParses("deny", name);
    assert "deny " == "deny" + " ";
  }

  /** The three command words contain no whitespace. */
  lemma VerbsAreWords()
    ensures IsWord("allow") && IsWord("deny") && IsWord("kick")
  {
    assert forall i :: 0 <= i < |"allow"| ==> "allow"[i] in "alow";
    assert forall i :: 0 <= i < |"deny"| ==> "deny"[i] in "deny";
    assert forall i :: 0 <= i < |"kick"| ==> "kick"[i] in "kic";
  }

  /** A participant that was never allowed asks for access and writes: nothing
      is broadcast and nothing is stored. */
  lemma PendingMessageIsDropped(st: State, id: SocketId, name: string, text: string, time: string)
    requires id in st.sockets && !st.sockets[id].authorized
    ensures ChatMessage(RequestAccess(st, id, name), id, text, time).outbox == st.outbox
  {
  }

  /** Two sockets ask for names with the same key: the later request replaces
      the earlier one, so `allow` authorizes the later socket only. */
  lemma LatestRequestWins(st: State, a: SocketId, b: SocketId, nameA: string, nameB: string)
    requires Valid(st) && a in st.sockets && b in st.sockets && a != b
    requires Canonical(nameA) == Canonical(nameB)
    ensures var key := Canonical(nameB);
      var s := Allow(RequestAccess(RequestAccess(st, a, nameA), b, nameB), key);
      && Get(s.active, key) == Some(b)
      && s.sockets[b].authorized
      && s.sockets[a].authorized == st.sockets[a].authorized
      && key !in Keys(s.pending)
  {
    var s1 := RequestAccess(st, a, nameA);
    RequestAccessKeepsValid(st, a, nameA);
    RequestAccessKeepsValid(s1, b, nameB);
    AllowMovesKey(RequestAccess(s1, b, nameB), Canonical(nameB));
  }

  /** An active participant whose name has no surrounding whitespace drops:
      the key is in neither registry afterwards and the last event sent to
      everyone is the list of remaining active keys, which does not hold it. */
  lemma ActiveParticipantLeaves(st: State, id: SocketId, name: string)
    requires Valid(st) && id in st.sockets
    requires st.sockets[id].username == Some(name) && name != "" && Trim(name) == name
    ensures var r := Disconnect(st, id);
      && Canonical(name) !in Keys(r.pending)
      && Canonical(name) !in Keys(r.active)
      && r.outbox[|r.outbox| - 1] == OnlineUsers(Keys(r.active))
  {
    DisconnectKeyMatchesIff(name);
  }

  /** The disconnect handler lower-cases the name but does not trim it
      (server.js:73), so a name with surrounding whitespace stays pending
      under its trimmed key after its socket has gone. */
  lemma UntrimmedNameOutlivesDisconnect(st: State, id: SocketId, name: string)
    requires Valid(st) && id in st.sockets
    requires Trim(name) != name
    ensures Get(Disconnect(RequestAccess(st, id, name), id).pending, Canonical(name)) == Some(id)
  {
    DisconnectKeyMatchesIff(name);
    var s1 := RequestAccess(st, id, name);
    GetDelete(s1.pending, ToLower(name));
  }

  /** Nothing keeps the registries apart: an active socket that asks for access
      again under its own key is then both pending and active. */
  lemma ActiveSocketCanBePendingToo(st: State, id: SocketId, name: string)
    requires Valid(st) && id in st.sockets
    requires Canonical(name) in Keys(st.active)
    ensures var r := RequestAccess(st, id, name);
      Canonical(name) in Keys(r.pending) && Canonical(name) in Keys(r.active)
  {
  }

  /** `allow` announces the active keys from before the newcomer is added
      (server.js:97-99): the list it sends lacks the key that is now active. */
  lemma AllowAnnouncesOldList(st: State, key: string)
    requires Valid(st) && key in Keys(st.pending) && key !in Keys(st.active)
    ensures var r := Allow(st, key);
      && key in Keys(r.active)
      && r.outbox[|r.outbox| - 1].OnlineUsers?
      && key !in r.outbox[|r.outbox| - 1].users
  {
  }

  /** With the `disconnect` handler run as a later event, `kick` announces the
      active keys from before the removal (server.js:120-122): the list it
      sends still holds the key that is no longer active. */
  lemma KickAnnouncesOldList(st: State, key: string)
    requires key in Keys(st.active)
    ensures var r := Kick(st, key);
      && key !in Keys(r.active)
      && r.outbox[|r.outbox| - 1].OnlineUsers?
      && key in r.outbox[|r.outbox| - 1].users
  {
  }

  /** `kick` never clears `authorized` (server.js:116-123), and the gate
      (server.js:52) reads only that flag. In this model, where a kicked socket
      can still raise events, its messages therefore still pass the gate. */
  lemma KickedSocketStillPassesGate(st: State, key: string, text: string, time: string)
    requires Valid(st) && key in Keys(st.active)
    ensures var id := Get(st.active, key).value;
      var r := Kick(st, key);
      && id in r.sockets && r.sockets[id].authorized
      && ChatMessage(r, id, text, time).outbox
         == r.outbox + [ChatBroadcast(r.sockets[id].username, text, time)]
                     + [PersistRequest(r.sockets[id].username, text, time)]
  {
  }

  /** A kick followed, as a separate event, by the disconnect of the kicked
      socket says "left the chat" exactly once, and the key ends up inactive. */
  lemma KickThenDisconnect(st: State, key: string, name: string)
    requires Valid(st) && key in Keys(st.active)
    requires var id := Get(st.active, key).value;
      st.sockets[id].username == Some(name) && name != "" && ToLower(name) == key
    ensures var id := Get(st.active, key).value;
      var r1 := Kick(st, key);
      var r2 := Disconnect(r1, id);
      && key !in Keys(r2.active)
      && r2.outbox == st.outbox + [Kicked(id)] + [DisconnectRequested(id)] + [OnlineUsers(Keys(st.active))]
                                + [System(name + " left the chat")] + [OnlineUsers(Keys(r1.active))]
  {
    var r1 := Kick(st, key);
    assert Without(Keys(r1.active), key) == Keys(r1.active) by {
      assert Delete(r1.active, key) == r1.active;
    }
  }

  /** Repeating an operator command changes nothing the second time: the target
      has already left the registry the command looks it up in. */
  lemma CommandsAreIdempotent(st: State, key: string)
    requires Valid(st)
    ensures Allow(Allow(st, key), key) == Allow(st, key)
    ensures Deny(Deny(st, key), key) == Deny(st, key)
    ensures Kick(Kick(st, key), key) == Kick(st, key)
  {
    AllowKeepsValid(st, key);
  }

}
