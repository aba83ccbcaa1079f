/**
 * The real-time layer of backend/src/socket/socketHandler.js: the handshake
 * check, the two connection registries (`userSockets`: user to socket,
 * `socketUsers`: socket to user), the chat rooms each socket has joined, and
 * the events the handlers emit. An emitted event is recorded as a
 * `Delivery` to the set of sockets it reaches. The token verifier, message
 * ids and the clock are parameters.
 */
module SocketHandler {
  import opened Wrappers
  import opened Seqs
  import opened JsValues
  import opened OrderedMaps
  import opened MockDatabase
  import opened ChatModel
  import opened MessageModel
  import UserModel
  import MessageController

  // ---- handshake ----

  datatype Admission = Rejected(reason: string) | Admitted(userId: string)

  /**
   * The `io.use` middleware: no token, or one `verify` (jwt.verify, which
   * yields the token's `userId` or throws) refuses, is an authentication error.
   */
  function Admit(token: JsString, verify: string -> Option<string>): Admission {
    if !Truthy(token) then Rejected("Authentication error")
    else
      match verify(token.value)
      case None => Rejected("Authentication error")
      case Some(userId) => Admitted(userId)
  }

  /** A socket is admitted exactly when it carries a token that verifies, and then as the token's user. */
  lemma AdmitSpec(token: JsString, verify: string -> Option<string>)
    ensures Admit(token, verify).Admitted? <==> Truthy(token) && verify(token.value).Some?
    ensures Admit(token, verify).Admitted? ==> Admit(token, verify).userId == verify(token.value).value
    ensures Admit(token, verify).Rejected? ==> Admit(token, verify).reason == "Authentication error"
  {
  }

  // ---- rooms ----

  /** The room `chat:<id>`. */
  function Room(chatId: string): (r: string)
    ensures |r| == |chatId| + 5 && r[5..] == chatId
  {
    "chat:" + chatId
  }

  /** Different chats have different rooms. */
  lemma RoomInjective(a: string, b: string)
    ensures Room(a) == Room(b) <==> a == b
  {
    if Room(a) == Room(b) {
      assert a == Room(a)[5..];
    }
  }

  /** The sockets in `room`. */
  function Audience(joined: map<string, set<string>>, room: string): (r: set<string>)
    ensures forall s :: s in r <==> s in joined && room in joined[s]
  {
    set s | s in joined && room in joined[s]
  }

  /** The rooms of the chats `cs`. */
  function RoomsOf(cs: seq<Chat>): set<string>
  {
    set c | c in cs :: Room(c.id)
  }

  /** A socket that joined the rooms of `cs` is in the room of chat `id` exactly when one of `cs` has that id. */
  lemma RoomsOfExact(cs: seq<Chat>, id: string)
    ensures Room(id) in RoomsOf(cs) <==> exists c :: c in cs && c.id == id
  {
    if Room(id) in RoomsOf(cs) {
      var c :| c in cs && Room(c.id) == Room(id);
      RoomInjective(c.id, id);
    }
  }

  // ---- events ----

  datatype Outgoing =
    | NewMessage(message: MessageController.MessageView)
    | MessageError(error: string)
    | UserTyping(chatId: string, userId: string, firstName: Option<string>)
    | UserStopTyping(chatId: string, userId: string)
    | MessageRead(messageId: string, userId: string, readAt: Time)
    | UserStatusChanged(userId: string, status: Presence, lastSeen: Option<Time>)

  /** One `emit`, with the sockets it reaches. */
  datatype Delivery = Delivery(to: set<string>, event: Outgoing)

  /** `lastSeen: status === 'offline' ? new Date() : null`. */
  function LastSeenFor(status: Presence, now: Time): (r: Option<Time>)
    ensures r.Some? <==> status == Offline
    ensures r.Some? ==> r.value == now
  {
    if status == Offline then Some(now) else None
  }

  // ---- presence contacts ----

  /** The users other than `userId` among the memberships `ms`. */
  function OthersIn(ms: seq<Membership>, userId: string): (r: set<string>)
    ensures forall x :: x in r <==> x != userId && exists m :: m in ms && m.userId == x
  {
    set m | m in ms && m.userId != userId :: m.userId
  }

  /** The contact set of `broadcastUserStatus`: the other members of each of the chats `cs`. */
  function ContactsOf(cs: seq<Chat>, all: seq<Membership>, userId: string): set<string>
  {
    if cs == [] then {}
    else ContactsOf(cs[..|cs| - 1], all, userId) + OthersIn(MembersOf(all, cs[|cs| - 1].id), userId)
  }

  /** A contact is a user other than `userId` who holds a membership of one of the chats. */
  lemma {:induction false} ContactsExact(cs: seq<Chat>, all: seq<Membership>, userId: string, x: string)
    ensures x in ContactsOf(cs, all, userId) <==>
      x != userId && exists c, m :: c in cs && m in all && m.chatId == c.id && m.userId == x
  {
    if cs != [] {
      var init, last := cs[..|cs| - 1], cs[|cs| - 1];
      assert cs == init + [last];
      ContactsExact(init, all, userId, x);
      if x in OthersIn(MembersOf(all, last.id), userId) {
        var m :| m in MembersOf(all, last.id) && m.userId == x;
        MembersOfExact(all, last.id, m);
        assert last in cs;
      }
      if x != userId && exists c, m :: c in cs && m in all && m.chatId == c.id && m.userId == x {
        var c, m :| c in cs && m in all && m.chatId == c.id && m.userId == x;
        if c == last {
          MembersOfExact(all, last.id, m);
        } else {
          assert c in init;
        }
      }
    }
  }

  /**
   * Over the caller's chats, the contacts are exactly the other users who
   * share a stored chat with them, each counted once (it is a set).
   */
  lemma ContactsAreChatmates(all: seq<Membership>, chats: map<string, Chat>, userId: string, x: string)
    requires forall k :: k in chats ==> chats[k].id == k
    ensures x in ContactsOf(ChatsOf(all, chats, userId), all, userId) <==>
      x != userId && exists m1, m2 :: m1 in all && m2 in all && m1.userId == userId && m1.chatId in chats
                                      && m2.chatId == m1.chatId && m2.userId == x
  {
    var cs := ChatsOf(all, chats, userId);
    ContactsExact(cs, all, userId, x);
    if x in ContactsOf(cs, all, userId) {
      var c, m2 :| c in cs && m2 in all && m2.chatId == c.id && m2.userId == x;
      ChatsOfExact(all, chats, userId, c);
      var m1 :| m1 in all && m1.userId == userId && m1.chatId in chats && chats[m1.chatId] == c;
      assert m2.chatId == m1.chatId;
    }
    if x != userId && exists m1, m2 :: m1 in all && m2 in all && m1.userId == userId && m1.chatId in chats
                                     && m2.chatId == m1.chatId && m2.userId == x {
      var m1, m2 :| m1 in all && m2 in all && m1.userId == userId && m1.chatId in chats
                    && m2.chatId == m1.chatId && m2.userId == x;
      ChatsOfExact(all, chats, userId, chats[m1.chatId]);
      assert chats[m1.chatId] in cs;
    }
  }

  /** The inner loop of `broadcastUserStatus`: the members of one chat other than the user. */
  method OthersOf(members: seq<Membership>, userId: string) returns (others: set<string>)
    ensures others == OthersIn(members, userId)
  {
    var j := 0;
    others := {};
    while j < |members|
      invariant 0 <= j <= |members|
      invariant others == OthersIn(members[..j], userId)
    {
      assert members[..j + 1] == members[..j] + [members[j]];
      if members[j].userId != userId {
        others := others + {members[j].userId};
      }
      j := j + 1;
    }
    assert members[..j] == members;
  }

  /** The contact loop of `broadcastUserStatus`: the chats of the user, then the members of each. */
  method ContactIds(store: ChatStore, userId: string) returns (r: set<string>)
    requires store.Valid()
    ensures r == ContactsOf(ChatsOf(store.members.Values(), store.chats.entries, userId),
                            store.members.Values(), userId)
  {
    var chats := store.GetUserChats(userId);
    r := {};
    var i := 0;
    while i < |chats|
      invariant 0 <= i <= |chats|
      invariant r == ContactsOf(chats[..i], store.members.Values(), userId)
    {
      var members := store.GetMembers(chats[i].id);
      var others := OthersOf(members, userId);
      assert chats[..i + 1][..i] == chats[..i];
      r := r + others;
      i := i + 1;
    }
    assert chats[..i] == chats;
  }

  /** The sockets a status change reaches: those `userSockets` holds for the contacts. */
  function Recipients(userSockets: OrderedMap<string, string>, contacts: set<string>): (r: set<string>)
    ensures forall s :: s in r <==> s != "" && exists c :: c in contacts && userSockets.Get(c) == Some(s)
  {
    set c | c in contacts && c in userSockets.entries && userSockets.entries[c] != "" :: userSockets.entries[c]
  }

  /** The partial record the connect and disconnect handlers pass to `User.findByIdAndUpdate`. */
  function PresencePatch(status: Presence, lastSeen: Option<Time>): UserUpdate {
    Patch(Undefined, Undefined, Undefined, Undefined, Some(status), lastSeen, None)
  }

  /** Such an update changes the presence fields and `updatedAt`, nothing else. */
  lemma PresenceMerge(u: User, status: Presence, lastSeen: Option<Time>, now: Time)
    ensures Merge(u, PresencePatch(status, lastSeen), now)
         == u.(status := status, lastSeen := if lastSeen.Some? then lastSeen else u.lastSeen, updatedAt := now)
  {
  }

  // ---- the server ----

  class SocketServer {
    /** `userSockets`: the socket last registered for each user. */
    var userSockets: OrderedMap<string, string>
    /** `socketUsers`: the user of each registered socket. */
    var socketUsers: OrderedMap<string, string>
    /** The rooms each connected socket has joined. */
    var joined: map<string, set<string>>
    /** Every emit so far, oldest first. */
    var sent: seq<Delivery>

    ghost predicate Valid()
      reads this
    {
      userSockets.Valid() && socketUsers.Valid()
    }

    constructor ()
      ensures Valid()
      ensures userSockets == Empty() && socketUsers == Empty() && joined == map[] && sent == []
    {
      userSockets := Empty();
      socketUsers := Empty();
      joined := map[];
      sent := [];
    }

    /**
     * `broadcastUserStatus`: one `user_status_changed` to the registered
     * socket of every contact, carrying a last-seen time exactly when the
     * user went offline.
     */
    method BroadcastUserStatus(store: ChatStore, userId: string, status: Presence, now: Time)
      requires Valid() && store.Valid()
      modifies this
      ensures Valid()
      ensures userSockets == old(userSockets) && socketUsers == old(socketUsers) && joined == old(joined)
      ensures sent == old(sent) + [Delivery(
        Recipients(userSockets, ContactsOf(ChatsOf(store.members.Values(), store.chats.entries, userId),
                                           store.members.Values(), userId)),
        UserStatusChanged(userId, status, LastSeenFor(status, now)))]
    {
      var contacts := ContactIds(store, userId);
      sent := sent + [Delivery(Recipients(userSockets, contacts), UserStatusChanged(userId, status, LastSeenFor(status, now)))];
    }

    /** The loop of the connection handler that joins the room of each of the user's chats. */
    method JoinRooms(socketId: string, chats: seq<Chat>)
      modifies this
      ensures joined == old(joined)[socketId := RoomsOf(chats)]
      ensures userSockets == old(userSockets) && socketUsers == old(socketUsers) && sent == old(sent)
    {
      joined := joined[socketId := {}];
      var i := 0;
      assert RoomsOf(chats[..0]) == {} by {
        assert chats[..0] == [];
      }
      while i < |chats|
        invariant 0 <= i <= |chats|
        invariant joined == old(joined)[socketId := RoomsOf(chats[..i])]
        invariant userSockets == old(userSockets) && socketUsers == old(socketUsers) && sent == old(sent)
      {
        assert RoomsOf(chats[..i + 1]) == RoomsOf(chats[..i]) + {Room(chats[i].id)} by {
          assert chats[..i + 1] == chats[..i] + [chats[i]];
        }
        joined := joined[socketId := joined[socketId] + {Room(chats[i].id)}];
        i := i + 1;
      }
      assert chats[..i] == chats;
    }

    /**
     * The `connection` handler: both registries point at the new socket (a
     * user's earlier socket loses its `userSockets` entry), a stored user is
     * set online and the contacts told, and the socket joins the room of
     * every chat of the user.
     */
    method Connect(socketId: string, userId: string, store: ChatStore, db: Db, now: Time)
      requires Valid() && store.Valid() && db.Valid()
      modifies this, db
      ensures Valid() && db.Valid()
      ensures userSockets == old(userSockets).Set(userId, socketId)
      ensures socketUsers == old(socketUsers).Set(socketId, userId)
      ensures joined == old(joined)[socketId := RoomsOf(ChatsOf(store.members.Values(), store.chats.entries, userId))]
      ensures userId in old(db.users.entries) ==>
        && db.users == old(db.users).Set(userId, old(db.users.entries[userId]).(status := Online, updatedAt := now))
        && sent == old(sent) + [Delivery(
             Recipients(userSockets, ContactsOf(ChatsOf(store.members.Values(), store.chats.entries, userId),
                                                store.members.Values(), userId)),
             UserStatusChanged(userId, Online, None))]
      ensures userId !in old(db.users.entries) ==> db.users == old(db.users) && sent == old(sent)
      ensures db.sessions == old(db.sessions) && db.chats == old(db.chats) && db.messages == old(db.messages)
    {
      Register(socketId, userId);
      var chats := store.GetUserChats(userId);
      JoinRooms(socketId, chats);
      var user := db.FindUserById(userId);
      if user.Some? {
        GoOnline(store, db, userId, now);
      }
    }

    /** The first two lines of the connection handler: both registries point at the new socket. */
    method Register(socketId: string, userId: string)
      requires Valid()
      modifies this
      ensures Valid()
      ensures userSockets == old(userSockets).Set(userId, socketId)
      ensures socketUsers == old(socketUsers).Set(socketId, userId)
      ensures joined == old(joined) && sent == old(sent)
    {
      userSockets := userSockets.Set(userId, socketId);
      socketUsers := socketUsers.Set(socketId, userId);
    }

    /** The `findById(...).then` of the connection handler for a stored user. */
    method GoOnline(store: ChatStore, db: Db, userId: string, now: Time)
      requires Valid() && store.Valid() && db.Valid()
      requires userId in db.users.entries
      modifies this, db
      ensures Valid() && db.Valid()
      ensures userSockets == old(userSockets) && socketUsers == old(socketUsers) && joined == old(joined)
      ensures db.users == old(db.users).Set(userId, old(db.users.entries[userId]).(status := Online, updatedAt := now))
      ensures sent == old(sent) + [Delivery(
        Recipients(userSockets, ContactsOf(ChatsOf(store.members.Values(), store.chats.entries, userId),
                                           store.members.Values(), userId)),
        UserStatusChanged(userId, Online, None))]
      ensures db.sessions == old(db.sessions) && db.chats == old(db.chats) && db.messages == old(db.messages)
    {
      PresenceMerge(db.users.entries[userId], Online, None, now);
      var _ := UserModel.FindByIdAndUpdate(db, userId, PresencePatch(Online, None), now);
      BroadcastUserStatus(store, userId, Online, now);
    }

    /**
     * `send_message`: the message is stored without any check on its content;
     * its payload, status `'sent'`, goes to every socket in the chat's room,
     * the sender's own included, and the chat's `updatedAt` becomes `now`. A
     * missing sender record ends in `message_error` to the sender alone, the
     * message staying stored.
     */
    method SendMessage(socketId: string, userId: string, chatId: string, content: string,
                       messageType: Option<string>, replyToId: Option<string>,
                       msgs: MessageStore, store: ChatStore, db: Db, messageId: string, now: Time)
      requires Valid() && msgs.Valid() && store.Valid() && db.Valid()
      modifies this, msgs, store
      ensures Valid() && msgs.Valid() && store.Valid()
      ensures userSockets == old(userSockets) && socketUsers == old(socketUsers) && joined == old(joined)
      ensures var m := Message(messageId, chatId, userId, content, messageType.GetOr("text"), replyToId,
                               "sent", now, now, None);
        msgs.messages == old(msgs.messages).Set(messageId, m) && msgs.statuses == old(msgs.statuses)
      ensures userId !in db.users.entries ==>
        sent == old(sent) + [Delivery({socketId}, MessageError("Failed to send message"))]
        && store.chats == old(store.chats)
      ensures userId in db.users.entries ==>
        var m := Message(messageId, chatId, userId, content, messageType.GetOr("text"), replyToId,
                         "sent", now, now, None);
        && sent == old(sent) + [Delivery(Audience(joined, Room(chatId)),
                                         NewMessage(MessageController.ViewOf(m, db.users.entries[userId])))]
        && (chatId in old(store.chats.entries) ==>
              store.chats == old(store.chats).Set(chatId, old(store.chats.entries[chatId]).(updatedAt := now)))
        && (chatId !in old(store.chats.entries) ==> store.chats == old(store.chats))
      ensures store.members == old(store.members)
    {
      var m := msgs.Create(messageId, chatId, userId, content, messageType, replyToId, now);
      var sender := db.FindUserById(userId);
      if sender.None? {
        sent := sent + [Delivery({socketId}, MessageError("Failed to send message"))];
        return;
      }
      var payload := MessageController.ViewOf(m, sender.value).(status := "sent");
      assert payload == MessageController.ViewOf(m, sender.value);
      sent := sent + [Delivery(Audience(joined, Room(chatId)), NewMessage(payload))];
      store.Touch(chatId, now);
    }

    /** `typing_start`: the room, less the typist's socket, learns who is typing (a stored user only). */
    method TypingStart(socketId: string, userId: string, chatId: string, db: Db)
      requires Valid() && db.Valid()
      modifies this
      ensures Valid()
      ensures userSockets == old(userSockets) && socketUsers == old(socketUsers) && joined == old(joined)
      ensures userId in db.users.entries ==>
        sent == old(sent) + [Delivery(Audience(joined, Room(chatId)) - {socketId},
                                      UserTyping(chatId, userId, db.users.entries[userId].firstName))]
      ensures userId !in db.users.entries ==> sent == old(sent)
    {
      var user := db.FindUserById(userId);
      if user.Some? {
        sent := sent + [Delivery(Audience(joined, Room(chatId)) - {socketId},
                                 UserTyping(chatId, userId, user.value.firstName))];
      }
    }

    /** `typing_stop`: the room, less the typist's socket, learns the typing stopped. */
    method TypingStop(socketId: string, userId: string, chatId: string)
      requires Valid()
      modifies this
      ensures Valid()
      ensures userSockets == old(userSockets) && socketUsers == old(socketUsers) && joined == old(joined)
      ensures sent == old(sent) + [Delivery(Audience(joined, Room(chatId)) - {socketId}, UserStopTyping(chatId, userId))]
    {
      sent := sent + [Delivery(Audience(joined, Room(chatId)) - {socketId}, UserStopTyping(chatId, userId))];
    }

    /** `mark_read`: the reader's status becomes `'read'` and the room, less the reader's socket, is told. */
    method MarkRead(socketId: string, userId: string, messageId: string, chatId: string, msgs: MessageStore,
                    now: Time)
      requires Valid() && msgs.Valid()
      modifies this, msgs
      ensures Valid() && msgs.Valid()
      ensures userSockets == old(userSockets) && socketUsers == old(socketUsers) && joined == old(joined)
      ensures msgs.statuses == old(msgs.statuses).Set(StatusKey(messageId, userId),
                                                      StatusEntry(messageId, userId, "read", now))
      ensures msgs.messages == old(msgs.messages)
      ensures sent == old(sent) + [Delivery(Audience(joined, Room(chatId)) - {socketId},
                                            MessageRead(messageId, userId, now))]
    {
      msgs.UpdateStatus(messageId, userId, "read", now);
      sent := sent + [Delivery(Audience(joined, Room(chatId)) - {socketId}, MessageRead(messageId, userId, now))];
    }

    /** `join_chat`: the socket joins exactly the chat's room. */
    method JoinChat(socketId: string, chatId: string)
      requires socketId in joined
      modifies this
      ensures joined == old(joined)[socketId := old(joined)[socketId] + {Room(chatId)}]
      ensures userSockets == old(userSockets) && socketUsers == old(socketUsers) && sent == old(sent)
    {
      joined := joined[socketId := joined[socketId] + {Room(chatId)}];
    }

    /** `leave_chat`: the socket leaves exactly the chat's room. */
    method LeaveChat(socketId: string, chatId: string)
      requires socketId in joined
      modifies this
      ensures joined == old(joined)[socketId := old(joined)[socketId] - {Room(chatId)}]
      ensures userSockets == old(userSockets) && socketUsers == old(socketUsers) && sent == old(sent)
    {
      joined := joined[socketId := joined[socketId] - {Room(chatId)}];
    }

    /**
     * The `disconnect` handler: the user's `userSockets` entry goes, whichever
     * socket it points at, and so does the socket's `socketUsers` entry and its
     * rooms; a stored user is set offline with a last-seen time, and the
     * contacts are told.
     */
    method Disconnect(socketId: string, userId: string, store: ChatStore, db: Db, now: Time)
      requires Valid() && store.Valid() && db.Valid()
      modifies this, db
      ensures Valid() && db.Valid()
      ensures userSockets == old(userSockets).Delete(userId)
      ensures socketUsers == old(socketUsers).Delete(socketId)
      ensures joined == old(joined) - {socketId}
      ensures userId in old(db.users.entries) ==>
        db.users == old(db.users).Set(userId, old(db.users.entries[userId]).(status := Offline, lastSeen := Some(now),
                                                                              updatedAt := now))
      ensures userId !in old(db.users.entries) ==> db.users == old(db.users)
      ensures db.sessions == old(db.sessions) && db.chats == old(db.chats) && db.messages == old(db.messages)
      ensures sent == old(sent) + [Delivery(
        Recipients(userSockets, ContactsOf(ChatsOf(store.members.Values(), store.chats.entries, userId),
                                           store.members.Values(), userId)),
        UserStatusChanged(userId, Offline, Some(now)))]
    {
      userSockets := userSockets.Delete(userId);
      socketUsers := socketUsers.Delete(socketId);
      joined := joined - {socketId};
      if userId in db.users.entries {
        PresenceMerge(db.users.entries[userId], Offline, Some(now), now);
      }
      var _ := UserModel.FindByIdAndUpdate(db, userId, PresencePatch(Offline, Some(now)), now);
      BroadcastUserStatus(store, userId, Offline, now);
    }
  }

  /** Status events reach only sockets registered for a contact, never the user's own. */
  lemma StatusReachesOnlyContacts(userSockets: OrderedMap<string, string>, contacts: set<string>, userId: string,
                                  s: string)
    requires userId !in contacts
    requires s in Recipients(userSockets, contacts)
    ensures exists c :: c in contacts && c != userId && userSockets.Get(c) == Some(s)
  {
  }

  /**
   * A user connected from two sockets loses its `userSockets` entry when the
   * first one disconnects, although the second is still registered in
   * `socketUsers`: status changes then no longer reach it.
   */
  lemma StaleDisconnect(userId: string, first: string, second: string)
    requires first != second
    ensures var users := Empty<string, string>().Set(userId, first).Set(userId, second).Delete(userId);
      var sockets := Empty<string, string>().Set(first, userId).Set(second, userId).Delete(first);
      && users.Get(userId) == None
      && sockets.Get(second) == Some(userId)
      && Recipients(users, {userId}) == {}
  {
    var users := Empty<string, string>().Set(userId, first).Set(userId, second).Delete(userId);
    assert userId !in users.entries;
  }
}
