/**
 * The client message service of frontend/src/services/messageService.js:
 * one cached message list per chat in `localStorage`, and API calls that fall
 * back to it when the backend is unreachable or answers with a 5xx status.
 * `Date.now()` is the parameter `now`.
 */
module MessageService {
  import opened Wrappers
  import opened Text
  import opened BrowserStorage

  /** `_addCachedMessage(chatId, message)`: appended to that chat's list; the other chats keep theirs. */
  method AddCachedMessage(storage: LocalStorage, chatId: string, message: ClientMessage)
    modifies storage
    ensures storage.cachedMessages == old(storage.cachedMessages)[chatId := old(storage.MessagesOf(chatId)) + [message]]
    ensures forall c :: c != chatId ==> storage.MessagesOf(c) == old(storage.MessagesOf(c))
    ensures storage.token == old(storage.token) && storage.user == old(storage.user)
    ensures storage.cachedUsers == old(storage.cachedUsers) && storage.cachedChats == old(storage.cachedChats)
  {
    var messages := storage.MessagesOf(chatId);
    storage.cachedMessages := storage.cachedMessages[chatId := messages + [message]];
  }

  /** The message `sendMessage` makes up offline, authored by the signed-in user. */
  function LocalMessage(chatId: string, content: string, messageType: string, me: ClientUser, now: nat)
    : (m: ClientMessage)
    ensures m.status == "sent" && m.chatId == chatId && m.content == content && m.sender.userId == me.userId
    ensures |m.messageId| > 6 && m.messageId[..6] == "local_"
  {
    ClientMessage(LocalId(now), chatId, ClientSender(me.userId, me.firstName, me.lastName),
                  content, messageType, now, "sent")
  }

  /** The error reading a field of `JSON.parse(null)` raises. */
  const NO_STORED_USER := "TypeError: user is null"

  /**
   * `sendMessage(chatId, content, messageType)`: the server's message, or
   * offline one made up with status `'sent'`; either is appended to the
   * chat's cache. Offline with no stored user the call throws. Other errors
   * are rethrown and the cache is left alone.
   */
  method SendMessage(storage: LocalStorage, chatId: string, content: string, messageType: Option<string>,
                     response: Response<ClientMessage>, now: nat) returns (r: Completion<ClientMessage>)
    modifies storage
    ensures response.Ok? ==>
      r == Value(response.data)
      && storage.cachedMessages == old(storage.cachedMessages)[chatId := old(storage.MessagesOf(chatId)) + [response.data]]
    ensures Unavailable(response) && old(storage.user).Some? ==>
      var m := LocalMessage(chatId, content, messageType.GetOr("text"), old(storage.user).value, now);
      r == Value(m) && storage.cachedMessages == old(storage.cachedMessages)[chatId := old(storage.MessagesOf(chatId)) + [m]]
    ensures Unavailable(response) && old(storage.user).None? ==>
      r == Raised(NO_STORED_USER) && storage.cachedMessages == old(storage.cachedMessages)
    ensures response.Error? && !Unavailable(response) ==>
      r == Rethrown(response.code, response.status) && storage.cachedMessages == old(storage.cachedMessages)
    ensures storage.token == old(storage.token) && storage.user == old(storage.user)
    ensures storage.cachedUsers == old(storage.cachedUsers) && storage.cachedChats == old(storage.cachedChats)
  {
    if response.Ok? {
      AddCachedMessage(storage, chatId, response.data);
      return Value(response.data);
    }
    if Unavailable(response) {
      var user := storage.user;
      if user.None? {
        return Raised(NO_STORED_USER);
      }
      var m := LocalMessage(chatId, content, messageType.GetOr("text"), user.value, now);
      AddCachedMessage(storage, chatId, m);
      return Value(m);
    }
    return Rethrown(response.code, response.status);
  }

  /** The data of `GET /messages/:chatId`; `messages` may be missing. */
  datatype HistoryData = HistoryData(messages: Option<seq<ClientMessage>>, hasMore: bool)

  /**
   * `getChatMessages(chatId)`: the server's page replaces the chat's cache (an
   * absent list empties it); offline, the cached list comes back with
   * `hasMore` false.
   */
  method GetChatMessages(storage: LocalStorage, chatId: string, response: Response<HistoryData>)
    returns (r: Completion<HistoryData>)
    modifies storage
    ensures response.Ok? ==>
      r == Value(response.data)
      && storage.cachedMessages == old(storage.cachedMessages)[chatId := response.data.messages.GetOr([])]
    ensures Unavailable(response) ==>
      r == Value(HistoryData(Some(old(storage.MessagesOf(chatId))), false))
      && storage.cachedMessages == old(storage.cachedMessages)
    ensures response.Error? && !Unavailable(response) ==>
      r == Rethrown(response.code, response.status) && storage.cachedMessages == old(storage.cachedMessages)
    ensures storage.token == old(storage.token) && storage.user == old(storage.user)
    ensures storage.cachedUsers == old(storage.cachedUsers) && storage.cachedChats == old(storage.cachedChats)
  {
    if response.Ok? {
      storage.cachedMessages := storage.cachedMessages[chatId := response.data.messages.GetOr([])];
      return Value(response.data);
    }
    if Unavailable(response) {
      return Value(HistoryData(Some(storage.MessagesOf(chatId)), false));
    }
    return Rethrown(response.code, response.status);
  }

  datatype ReadData = ReadData(messageId: string, status: string, readAt: Time)

  /** `markAsRead(messageId)`: the server's answer, or offline a `'read'` receipt for that id made up now. */
  function MarkAsRead(messageId: string, response: Response<ReadData>, now: Time): (r: Completion<ReadData>)
    ensures response.Ok? ==> r == Value(response.data)
    ensures Unavailable(response) ==> r.Value? && r.value.messageId == messageId && r.value.status == "read"
    ensures response.Error? && !Unavailable(response) ==> r == Rethrown(response.code, response.status)
  {
    if response.Ok? then Value(response.data)
    else if Unavailable(response) then Value(ReadData(messageId, "read", now))
    else Rethrown(response.code, response.status)
  }
}
