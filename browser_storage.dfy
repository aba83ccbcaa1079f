/**
 * The browser's `localStorage` as the frontend services use it: the session
 * token, the signed-in user, the offline user cache keyed by phone, the
 * cached chat list and one cached message list per chat. Each key holds the
 * value the services wrote there (JSON encoding is left out), and the
 * records are the shapes the services read back. Also the outcome of an
 * API call and of a service call.
 */
module BrowserStorage {
  import opened Wrappers
  import opened OrderedMaps
  import opened Text

  type Time = int

  /** `'local_' + Date.now()`: the id of a token, chat or message made up offline. */
  function LocalId(now: nat): (r: string)
    ensures |r| > 6 && r[..6] == "local_"
  {
    "local_" + NatToString(now)
  }

  /** A user as the client keeps it; `password` is only set in the offline cache. */
  datatype ClientUser = ClientUser(
    userId: string, phone: string, email: Option<string>, firstName: Option<string>,
    lastName: Option<string>, username: Option<string>, bio: Option<string>,
    profilePhoto: Option<string>, status: string, password: Option<string>)

  /** A chat as the client caches it: as the server sent it, or made up offline. */
  datatype ClientChat =
    | RemoteChat(chatId: string, fields: map<string, string>)
    | LocalPrivate(chatId: string, userId: string, createdAt: Time)
    | LocalGroup(chatId: string, name: string, memberIds: seq<string>, createdAt: Time)

  datatype ClientSender = ClientSender(userId: string, firstName: Option<string>, lastName: Option<string>)

  /** A message as the client shows and caches it. */
  datatype ClientMessage = ClientMessage(messageId: string, chatId: string, sender: ClientSender, content: string,
                                         messageType: string, timestamp: Time, status: string)

  /** The result of an axios call: the response data, or an error with its `code` and HTTP status. */
  datatype Response<T> = Ok(data: T) | Error(code: Option<string>, status: Option<int>)

  /** `error.code === 'ERR_NETWORK' || error.response?.status >= 500`: the services fall back offline. */
  predicate Unavailable<T>(r: Response<T>) {
    r.Error? && (r.code == Some("ERR_NETWORK") || (r.status.Some? && r.status.value >= 500))
  }

  /** How a service call ends: with a value, rethrowing the API error, or throwing a new error. */
  datatype Completion<T> = Value(value: T) | Rethrown(code: Option<string>, status: Option<int>) | Raised(message: string)

  class LocalStorage {
    /** `token` */
    var token: Option<string>
    /** `user` */
    var user: Option<ClientUser>
    /** `cached_users`: an object keyed by phone */
    var cachedUsers: OrderedMap<string, ClientUser>
    /** `cached_chats` */
    var cachedChats: seq<ClientChat>
    /** `cached_messages_<chatId>` for every chat with such a key */
    var cachedMessages: map<string, seq<ClientMessage>>

    ghost predicate Valid()
      reads this
    {
      cachedUsers.Valid()
    }

    /** An empty storage. */
    constructor ()
      ensures Valid()
      ensures token == None && user == None && cachedUsers == Empty() && cachedChats == [] && cachedMessages == map[]
    {
      token := None;
      user := None;
      cachedUsers := Empty();
      cachedChats := [];
      cachedMessages := map[];
    }

    /** `_getCachedMessages(chatId)`: the cached list, or `[]` when the key is absent. */
    function MessagesOf(chatId: string): (r: seq<ClientMessage>)
      reads this
      ensures chatId in cachedMessages ==> r == cachedMessages[chatId]
      ensures chatId !in cachedMessages ==> r == []
    {
      if chatId in cachedMessages then cachedMessages[chatId] else []
    }
  }
}
