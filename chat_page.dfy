/**
 * The state logic of the chat page, frontend/src/pages/Chat.jsx: how the
 * socket events change the open chat's messages, the chat list, the open
 * chat and the set of typing names, and the guard of the send handler.
 *
 * The socket handlers are registered once, by the mount effect (its
 * dependency list is empty), so they see the values of the first render:
 * the route's `chatId` at mount is `mounted`, and `currentChat` at mount is
 * always null. Their `setX(prev => ...)` updates act on the live state.
 * The route's `chatId` now is `route`; both are absent on `/chat`. The
 * signed-in user's id is `me` (absent when no user is stored).
 */
module ChatPage {
  import opened Wrappers
  import opened Seqs
  import opened Text
  import opened Sorting
  import opened BrowserStorage
  import SocketService

  type Time = int

  /** The other member of a private chat, as the chat list shows it. */
  datatype ChatUser = ChatUser(userId: string, firstName: string, lastName: Option<string>, status: string)

  datatype LastMessage = LastMessage(content: string, timestamp: Time)

  datatype ChatKind = Private(user: ChatUser) | Group(name: string, memberCount: nat)

  /** An entry of the chat list. */
  datatype ChatEntry = ChatEntry(chatId: string, kind: ChatKind, lastMessage: Option<LastMessage>, updatedAt: Time)

  /** `new Date(chat.updatedAt)` as the sort compares it. */
  function UpdatedAt(c: ChatEntry): int {
    c.updatedAt
  }

  /** The chat entry once `m` arrived: the message's chat gets it as last message and its time; others stay. */
  function Touch(m: ClientMessage): ChatEntry -> ChatEntry {
    (c: ChatEntry) =>
      if c.chatId == m.chatId
      then c.(lastMessage := Some(LastMessage(m.content, m.timestamp)), updatedAt := m.timestamp)
      else c
  }

  /** `handleNewMessage`, on the messages: appended when the message belongs to the chat the handler compares with. */
  function MessagesAfterNew(mounted: Option<string>, messages: seq<ClientMessage>, m: ClientMessage)
    : seq<ClientMessage>
  {
    if mounted == Some(m.chatId) then messages + [m] else messages
  }

  /** `handleNewMessage`, on the chat list: the message's chat updated, then the list sorted newest first. */
  function ChatsAfterNew(chats: seq<ChatEntry>, m: ClientMessage): seq<ChatEntry> {
    SortDesc(Map(chats, Touch(m)), UpdatedAt)
  }

  /**
   * The messages grow by the new one exactly when it belongs to the chat id
   * captured at mount; nothing else changes.
   */
  lemma MessagesAfterNewSpec(mounted: Option<string>, messages: seq<ClientMessage>, m: ClientMessage)
    ensures mounted == Some(m.chatId) ==> MessagesAfterNew(mounted, messages, m) == messages + [m]
    ensures mounted != Some(m.chatId) ==> MessagesAfterNew(mounted, messages, m) == messages
  {
  }

  /**
   * After a new message the list holds the same chats, the message's chat
   * carrying it as last message and its timestamp as `updatedAt`, every other
   * chat unchanged, sorted by `updatedAt` descending, and chats with equal
   * times in their previous order.
   */
  lemma ChatsAfterNewSpec(chats: seq<ChatEntry>, m: ClientMessage, c: ChatEntry, k: int)
    ensures |ChatsAfterNew(chats, m)| == |chats|
    ensures multiset(ChatsAfterNew(chats, m)) == multiset(Map(chats, Touch(m)))
    ensures SortedDesc(ChatsAfterNew(chats, m), UpdatedAt)
    ensures c in ChatsAfterNew(chats, m) && c.chatId == m.chatId ==>
      c.lastMessage == Some(LastMessage(m.content, m.timestamp)) && c.updatedAt == m.timestamp
    ensures c in ChatsAfterNew(chats, m) && c.chatId != m.chatId ==> c in chats
    ensures c in chats && c.chatId != m.chatId ==> c in ChatsAfterNew(chats, m)
    ensures WithKey(ChatsAfterNew(chats, m), UpdatedAt, k) == WithKey(Map(chats, Touch(m)), UpdatedAt, k)
  {
    var touched := Map(chats, Touch(m));
    SortDescSorted(touched, UpdatedAt);
    SortDescStable(touched, UpdatedAt, k);
    var r := ChatsAfterNew(chats, m);
    assert c in r <==> c in touched by {
      assert c in r <==> c in multiset(r);
      assert c in touched <==> c in multiset(touched);
    }
    TouchedMembers(chats, m, c);
  }

  lemma TouchedMembers(chats: seq<ChatEntry>, m: ClientMessage, c: ChatEntry)
    ensures c in Map(chats, Touch(m)) && c.chatId == m.chatId ==>
      c.lastMessage == Some(LastMessage(m.content, m.timestamp)) && c.updatedAt == m.timestamp
    ensures c in Map(chats, Touch(m)) && c.chatId != m.chatId ==> c in chats
    ensures c in chats && c.chatId != m.chatId ==> c in Map(chats, Touch(m))
  {
    var touched := Map(chats, Touch(m));
    if c in touched {
      var i :| 0 <= i < |touched| && touched[i] == c;
      assert c == Touch(m)(chats[i]);
    }
    if c in chats && c.chatId != m.chatId {
      var i :| 0 <= i < |chats| && chats[i] == c;
      assert touched[i] == c;
    }
  }

  /**
   * `handleUserTyping`: the name is added for the chat id captured at mount,
   * and never for the signed-in user.
   */
  function TypingAfterStart(mounted: Option<string>, me: Option<string>, typing: set<string>,
                            chatId: string, userId: string, firstName: string): (r: set<string>)
    ensures mounted == Some(chatId) && me != Some(userId) ==> r == typing + {firstName}
    ensures mounted != Some(chatId) || me == Some(userId) ==> r == typing
  {
    if mounted == Some(chatId) && me != Some(userId) then typing + {firstName} else typing
  }

  /**
   * `handleUserStopTyping` copies the set and returns the copy unchanged for
   * the chat id captured at mount: a name once added is never removed.
   */
  function TypingAfterStop(mounted: Option<string>, typing: set<string>, chatId: string, userId: string)
    : (r: set<string>)
    ensures r == typing
  {
    if mounted == Some(chatId) then set name | name in typing else typing
  }

  /** Once a name is in the typing set, no further start or stop event makes it disappear. */
  lemma {:induction false} TypingNeverClears(mounted: Option<string>, me: Option<string>, typing: set<string>,
                                             name: string, chatId: string, userId: string, firstName: string)
    requires name in typing
    ensures name in TypingAfterStart(mounted, me, typing, chatId, userId, firstName)
    ensures name in TypingAfterStop(mounted, typing, chatId, userId)
  {
  }

  /** A chat entry after `user_status_changed`: private chats with that user take the status. */
  function WithStatus(userId: string, status: string): ChatEntry -> ChatEntry {
    (c: ChatEntry) =>
      if c.kind.Private? && c.kind.user.userId == userId
      then c.(kind := Private(c.kind.user.(status := status)))
      else c
  }

  /** `handleUserStatusChanged`, on the chat list. */
  function ChatsAfterStatus(chats: seq<ChatEntry>, userId: string, status: string): seq<ChatEntry> {
    Map(chats, WithStatus(userId, status))
  }

  /** The open chat once the status of `userId` changed, as the page evidently means to update it. */
  function CurrentAfterStatus(current: Option<ChatEntry>, userId: string, status: string): Option<ChatEntry> {
    match current
    case None => None
    case Some(c) => Some(WithStatus(userId, status)(c))
  }

  /**
   * A status change reaches exactly the private chats with that user: their
   * user's status is the new one and nothing else of them changes; group
   * chats and other private chats are untouched, and the order stays.
   */
  lemma StatusSpec(chats: seq<ChatEntry>, userId: string, status: string)
    ensures var r := ChatsAfterStatus(chats, userId, status);
      && |r| == |chats|
      && (forall i :: 0 <= i < |chats| ==>
            r[i].chatId == chats[i].chatId && r[i].lastMessage == chats[i].lastMessage
            && r[i].updatedAt == chats[i].updatedAt)
      && (forall i :: 0 <= i < |chats| && chats[i].kind.Private? && chats[i].kind.user.userId == userId ==>
            r[i].kind == Private(chats[i].kind.user.(status := status)))
      && (forall i :: 0 <= i < |chats| && !(chats[i].kind.Private? && chats[i].kind.user.userId == userId) ==>
            r[i] == chats[i])
  {
  }

  // ---- The socket handlers on the whole page state ----

  /** The page's live state. */
  datatype PageState = PageState(route: Option<string>, current: Option<ChatEntry>, messages: seq<ClientMessage>,
                                 chats: seq<ChatEntry>, typing: set<string>)

  /** `handleNewMessage` as registered at mount: it compares with the chat id of the first render. */
  function OnNewMessage(mounted: Option<string>, p: PageState, m: ClientMessage): PageState {
    p.(messages := MessagesAfterNew(mounted, p.messages, m), chats := ChatsAfterNew(p.chats, m))
  }

  /** `handleUserTyping` as registered at mount. */
  function OnUserTyping(mounted: Option<string>, me: Option<string>, p: PageState,
                        chatId: string, userId: string, firstName: string): PageState {
    p.(typing := TypingAfterStart(mounted, me, p.typing, chatId, userId, firstName))
  }

  /**
   * `handleUserStatusChanged` as registered at mount: the chat list is
   * updated, but the guard on the open chat reads the first render's
   * `currentChat`, which is null, so the open chat is left as it is.
   */
  function OnStatusChanged(p: PageState, userId: string, status: string): (r: PageState)
    ensures r.current == p.current
  {
    p.(chats := ChatsAfterStatus(p.chats, userId, status))
  }

  /** `handleNewMessage` comparing with the route's chat id now, as intended. */
  function OnNewMessageIntended(p: PageState, m: ClientMessage): PageState {
    OnNewMessage(p.route, p, m)
  }

  /** `handleUserTyping` comparing with the route's chat id now, as intended. */
  function OnUserTypingIntended(me: Option<string>, p: PageState,
                                chatId: string, userId: string, firstName: string): PageState {
    OnUserTyping(p.route, me, p, chatId, userId, firstName)
  }

  /** `handleUserStatusChanged` with its guard on the live open chat, as intended. */
  function OnStatusChangedIntended(p: PageState, userId: string, status: string): PageState {
    OnStatusChanged(p, userId, status).(current := CurrentAfterStatus(p.current, userId, status))
  }

  /**
   * As written: a page mounted on `/chat` and then moved to the chat of an
   * incoming message (the same page instance) neither shows the message nor
   * the typing name, while the intended handlers do.
   */
  lemma MountedOnChatListMissesOpenChat(me: Option<string>, p: PageState, m: ClientMessage,
                                        userId: string, firstName: string)
    requires p.route == Some(m.chatId) && me != Some(userId) && firstName !in p.typing
    ensures OnNewMessage(None, p, m).messages == p.messages
    ensures OnNewMessageIntended(p, m).messages == p.messages + [m]
    ensures OnUserTyping(None, me, p, m.chatId, userId, firstName).typing == p.typing
    ensures firstName in OnUserTypingIntended(me, p, m.chatId, userId, firstName).typing
  {
  }

  /**
   * The intended handlers follow the route: a new message is appended
   * exactly when it belongs to the chat shown, and a typing name is added
   * exactly for the chat shown and another user; the chat list is updated as
   * before and nothing else of the page changes.
   */
  lemma IntendedHandlersSpec(me: Option<string>, p: PageState, m: ClientMessage,
                             chatId: string, userId: string, firstName: string)
    ensures var r := OnNewMessageIntended(p, m);
      && r.messages == (if p.route == Some(m.chatId) then p.messages + [m] else p.messages)
      && r.chats == ChatsAfterNew(p.chats, m)
      && r.route == p.route && r.current == p.current && r.typing == p.typing
    ensures var r := OnUserTypingIntended(me, p, chatId, userId, firstName);
      && r.typing == (if p.route == Some(chatId) && me != Some(userId) then p.typing + {firstName} else p.typing)
      && r.messages == p.messages && r.chats == p.chats && r.current == p.current
  {
    MessagesAfterNewSpec(p.route, p.messages, m);
  }

  /**
   * As written: while a private chat with the user is open, a status change
   * of that user leaves the open chat's status as it was, while the intended
   * handler shows the new one.
   */
  lemma StaleOpenChatStatus(p: PageState, userId: string, status: string)
    requires p.current.Some? && p.current.value.kind.Private? && p.current.value.kind.user.userId == userId
    requires p.current.value.kind.user.status != status
    ensures OnStatusChanged(p, userId, status).current.value.kind.user.status != status
    ensures OnStatusChangedIntended(p, userId, status).current.value.kind.user.status == status
  {
  }

  /**
   * The intended status handler updates the open chat exactly when it is a
   * private chat with that user, changing only that user's status; the chat
   * list is updated as by the handler as written.
   */
  lemma IntendedStatusSpec(p: PageState, userId: string, status: string)
    ensures var r := OnStatusChangedIntended(p, userId, status);
      && r.chats == ChatsAfterStatus(p.chats, userId, status)
      && r.messages == p.messages && r.typing == p.typing && r.route == p.route
      && (p.current.Some? && p.current.value.kind.Private? && p.current.value.kind.user.userId == userId ==>
            r.current == Some(p.current.value.(kind := Private(p.current.value.kind.user.(status := status)))))
      && (!(p.current.Some? && p.current.value.kind.Private? && p.current.value.kind.user.userId == userId) ==>
            r.current == p.current)
  {
  }

  /** A message after `message_read`: that id becomes `'read'`. */
  function MarkRead(messageId: string): ClientMessage -> ClientMessage {
    (m: ClientMessage) => if m.messageId == messageId then m.(status := "read") else m
  }

  /** `handleMessageRead` */
  function MessagesAfterRead(messages: seq<ClientMessage>, messageId: string): seq<ClientMessage> {
    Map(messages, MarkRead(messageId))
  }

  /**
   * A read receipt marks `'read'` the messages with that id and no other,
   * changing nothing else of them, and keeps the order; a second receipt
   * for the same id changes nothing more.
   */
  lemma ReadSpec(messages: seq<ClientMessage>, messageId: string)
    ensures var r := MessagesAfterRead(messages, messageId);
      && |r| == |messages|
      && (forall i :: 0 <= i < |messages| && messages[i].messageId == messageId ==>
            r[i] == messages[i].(status := "read"))
      && (forall i :: 0 <= i < |messages| && messages[i].messageId != messageId ==> r[i] == messages[i])
      && MessagesAfterRead(r, messageId) == r
  {
    var r := MessagesAfterRead(messages, messageId);
    var rr := MessagesAfterRead(r, messageId);
    assert |rr| == |r|;
    forall i | 0 <= i < |r| ensures rr[i] == r[i] {
    }
  }

  /**
   * The guard of `handleSendMessage`: `!messageInput.trim() || !chatId`. This
   * handler is created at every render, so it reads the route's chat id now.
   */
  predicate MaySend(input: string, route: Option<string>) {
    Trim(input) != "" && route.Some? && route.value != ""
  }

  /** A message is only sent for an open chat and input that is not all whitespace. */
  lemma MaySendSpec(input: string, route: Option<string>)
    ensures MaySend(input, route) <==> !AllWhitespace(input) && route.Some? && route.value != ""
  {
    TrimEmpty(input);
  }

  /**
   * `handleSendMessage`: past the guard, the input as typed (not trimmed) is
   * sent over the socket as a text message, the input box is cleared and the
   * typing indicator stopped. When the socket is not connected the send
   * throws: an error toast, and the input is kept.
   */
  method HandleSendMessage(socket: SocketService.SocketClient, input: string, route: Option<string>)
    returns (newInput: string, failed: bool)
    modifies socket
    ensures !MaySend(input, route) ==> newInput == input && !failed && unchanged(socket)
    ensures MaySend(input, route) && old(socket.SocketUp()) ==>
      newInput == "" && !failed
      && socket.emitted == old(socket.emitted)
                           + [SocketService.SendMessageEvent(route.value, input, "text", None),
                              SocketService.TypingStop(route.value)]
    ensures MaySend(input, route) && !old(socket.SocketUp()) ==>
      newInput == input && failed && socket.emitted == old(socket.emitted)
    ensures socket.socket == old(socket.socket) && socket.connected == old(socket.connected)
    ensures socket.listeners == old(socket.listeners)
  {
    if !MaySend(input, route) {
      return input, false;
    }
    var sent := socket.SendMessage(route.value, input, None, None);
    if sent.Err? {
      return input, true;
    }
    socket.StopTyping(route.value);
    return "", false;
  }
}
