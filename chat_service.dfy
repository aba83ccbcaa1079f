/**
 * The client chat service of frontend/src/services/chatService.js: every API
 * call falls back to the chat list cached in `localStorage` when the backend
 * is unreachable or answers with a 5xx status, and rethrows any other error.
 * `Date.now()` is the parameter `now`.
 */
module ChatService {
  import opened Wrappers
  import opened Seqs
  import opened Text
  import opened OrderedMaps
  import opened BrowserStorage

  function SameChat(chatId: string): (p: ClientChat -> bool)
    ensures forall c :: p(c) == (c.chatId == chatId)
  {
    (c: ClientChat) => c.chatId == chatId
  }

  /** Some cached chat has this id. */
  predicate HasChat(chats: seq<ClientChat>, chatId: string) {
    exists c :: c in chats && c.chatId == chatId
  }

  /** The list `_addCachedChat` leaves: `chat` appended unless its id is already cached. */
  function WithChat(chats: seq<ClientChat>, chat: ClientChat): seq<ClientChat> {
    if First(chats, SameChat(chat.chatId)).Some? then chats else chats + [chat]
  }

  /** No two cached chats share an id. */
  ghost predicate IdsUnique(chats: seq<ClientChat>) {
    forall i, j :: 0 <= i < j < |chats| ==> chats[i].chatId != chats[j].chatId
  }

  /**
   * Adding a chat appends it exactly when its id is new, so afterwards the id
   * is cached, cached ids stay unique, and adding the same chat again changes nothing.
   */
  lemma WithChatSpec(chats: seq<ClientChat>, chat: ClientChat)
    ensures HasChat(chats, chat.chatId) ==> WithChat(chats, chat) == chats
    ensures !HasChat(chats, chat.chatId) ==> WithChat(chats, chat) == chats + [chat]
    ensures HasChat(WithChat(chats, chat), chat.chatId)
    ensures IdsUnique(chats) ==> IdsUnique(WithChat(chats, chat))
    ensures WithChat(WithChat(chats, chat), chat) == WithChat(chats, chat)
  {
    FirstSpec(chats, SameChat(chat.chatId));
    var after := WithChat(chats, chat);
    if !HasChat(chats, chat.chatId) {
      assert chat in after;
      if IdsUnique(chats) {
        forall i, j | 0 <= i < j < |after| ensures after[i].chatId != after[j].chatId {
          if j == |chats| {
            assert after[i] in chats;
          }
        }
      }
    }
    FirstSpec(after, SameChat(chat.chatId));
  }

  /** `_addCachedChat(chat)`: returns its argument, added or not. */
  method AddCachedChat(storage: LocalStorage, chat: ClientChat) returns (r: ClientChat)
    modifies storage
    ensures r == chat
    ensures storage.cachedChats == WithChat(old(storage.cachedChats), chat)
    ensures storage.token == old(storage.token) && storage.user == old(storage.user)
    ensures storage.cachedUsers == old(storage.cachedUsers) && storage.cachedMessages == old(storage.cachedMessages)
  {
    var chats := storage.cachedChats;
    var existing := First(chats, SameChat(chat.chatId));
    if existing.None? {
      storage.cachedChats := chats + [chat];
    }
    r := chat;
  }

  /**
   * `createChat(userId)`: the server's chat, or offline a private chat with a
   * `local_` id; either is added to the cache. Other errors are rethrown and
   * the cache is left alone.
   */
  method CreateChat(storage: LocalStorage, userId: string, response: Response<ClientChat>, now: nat)
    returns (r: Completion<ClientChat>)
    modifies storage
    ensures response.Ok? ==>
      r == Value(response.data) && storage.cachedChats == WithChat(old(storage.cachedChats), response.data)
    ensures Unavailable(response) ==>
      var fallback := LocalPrivate(LocalId(now), userId, now);
      r == Value(fallback) && storage.cachedChats == WithChat(old(storage.cachedChats), fallback)
    ensures response.Error? && !Unavailable(response) ==>
      r == Rethrown(response.code, response.status) && storage.cachedChats == old(storage.cachedChats)
    ensures storage.token == old(storage.token) && storage.user == old(storage.user)
    ensures storage.cachedUsers == old(storage.cachedUsers) && storage.cachedMessages == old(storage.cachedMessages)
  {
    if response.Ok? {
      var _ := AddCachedChat(storage, response.data);
      return Value(response.data);
    }
    if Unavailable(response) {
      var fallback := LocalPrivate(LocalId(now), userId, now);
      var _ := AddCachedChat(storage, fallback);
      return Value(fallback);
    }
    return Rethrown(response.code, response.status);
  }

  /** `createGroup(name, memberIds)`: as `createChat`, the offline chat being a group with the name and ids. */
  method CreateGroup(storage: LocalStorage, name: string, memberIds: seq<string>, response: Response<ClientChat>,
                     now: nat) returns (r: Completion<ClientChat>)
    modifies storage
    ensures response.Ok? ==>
      r == Value(response.data) && storage.cachedChats == WithChat(old(storage.cachedChats), response.data)
    ensures Unavailable(response) ==>
      var fallback := LocalGroup(LocalId(now), name, memberIds, now);
      r == Value(fallback) && storage.cachedChats == WithChat(old(storage.cachedChats), fallback)
    ensures response.Error? && !Unavailable(response) ==>
      r == Rethrown(response.code, response.status) && storage.cachedChats == old(storage.cachedChats)
    ensures storage.token == old(storage.token) && storage.user == old(storage.user)
    ensures storage.cachedUsers == old(storage.cachedUsers) && storage.cachedMessages == old(storage.cachedMessages)
  {
    if response.Ok? {
      var _ := AddCachedChat(storage, response.data);
      return Value(response.data);
    }
    if Unavailable(response) {
      var fallback := LocalGroup(LocalId(now), name, memberIds, now);
      var _ := AddCachedChat(storage, fallback);
      return Value(fallback);
    }
    return Rethrown(response.code, response.status);
  }

  /** The data of `GET /chats`; `chats` may be missing. */
  datatype ChatsData = ChatsData(chats: Option<seq<ClientChat>>)

  /**
   * `getUserChats()`: the server's list replaces the cache (an absent list
   * empties it); offline, the cached list is returned.
   */
  method GetUserChats(storage: LocalStorage, response: Response<ChatsData>) returns (r: Completion<ChatsData>)
    modifies storage
    ensures response.Ok? ==> r == Value(response.data) && storage.cachedChats == response.data.chats.GetOr([])
    ensures Unavailable(response) ==>
      r == Value(ChatsData(Some(old(storage.cachedChats)))) && storage.cachedChats == old(storage.cachedChats)
    ensures response.Error? && !Unavailable(response) ==>
      r == Rethrown(response.code, response.status) && storage.cachedChats == old(storage.cachedChats)
    ensures storage.token == old(storage.token) && storage.user == old(storage.user)
    ensures storage.cachedUsers == old(storage.cachedUsers) && storage.cachedMessages == old(storage.cachedMessages)
  {
    if response.Ok? {
      storage.cachedChats := response.data.chats.GetOr([]);
      return Value(response.data);
    }
    if Unavailable(response) {
      return Value(ChatsData(Some(storage.cachedChats)));
    }
    return Rethrown(response.code, response.status);
  }

  /** `s?.toLowerCase().includes(q.toLowerCase())` */
  predicate FieldIncludes(s: Option<string>, q: string) {
    s.Some? && Includes(ToLower(s.value), ToLower(q))
  }

  /** The offline search filter: first name, last name or username ignoring ASCII case, or the phone as typed. */
  predicate CachedMatches(u: ClientUser, q: string) {
    FieldIncludes(u.firstName, q) || FieldIncludes(u.lastName, q) || Includes(u.phone, q) || FieldIncludes(u.username, q)
  }

  function CachedFilter(q: string): (p: ClientUser -> bool)
    ensures forall u :: p(u) == CachedMatches(u, q)
  {
    (u: ClientUser) => CachedMatches(u, q)
  }

  /**
   * `searchUsers(query)`: the server's result, or offline the cached users
   * that match, in cache order; unlike the server search there is no minimum
   * query length and the signed-in user is not left out.
   */
  method SearchUsers(storage: LocalStorage, query: string, response: Response<seq<ClientUser>>)
    returns (r: Completion<seq<ClientUser>>)
    requires storage.Valid()
    ensures response.Ok? ==> r == Value(response.data)
    ensures Unavailable(response) ==> r == Value(Filter(storage.cachedUsers.Values(), CachedFilter(query)))
    ensures response.Error? && !Unavailable(response) ==> r == Rethrown(response.code, response.status)
  {
    if response.Ok? {
      return Value(response.data);
    }
    if Unavailable(response) {
      var all := storage.cachedUsers.Values();
      return Value(Filter(all, CachedFilter(query)));
    }
    return Rethrown(response.code, response.status);
  }

  /** The offline result holds exactly the cached users that match, and an empty query matches every one of them. */
  lemma CachedSearchSpec(users: OrderedMap<string, ClientUser>, query: string, u: ClientUser)
    requires users.Valid()
    ensures u in Filter(users.Values(), CachedFilter(query)) <==> u in users.Values() && CachedMatches(u, query)
    ensures query == "" && u in users.Values() ==> u in Filter(users.Values(), CachedFilter(query))
  {
    FilterMembership(users.Values(), CachedFilter(query), u);
    IncludesEmpty(u.phone);
  }
}
