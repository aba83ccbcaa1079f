/**
 * The conversation handlers of backend/src/controllers/chatController.js:
 * find-or-create of a private chat, group creation with its validation,
 * the caller's chat list ordered by last update, and the contact search.
 * Chat ids are passed in and are fresh.
 */
module ChatController {
  import opened Wrappers
  import opened Seqs
  import opened Sorting
  import opened Text
  import opened JsValues
  import opened OrderedMaps
  import opened MockDatabase
  import opened ChatModel
  import MessageModel

  /** The other participant as chat replies show them. */
  datatype Peer = Peer(userId: string, firstName: Option<string>, lastName: Option<string>, status: Presence)

  function PeerOf(u: User): Peer {
    Peer(u.id, u.firstName, u.lastName, u.status)
  }

  // ---- createOrGetPrivateChat ----

  datatype PrivateReply = PrivateOpened(chat: Chat, peer: Peer) | PrivateRefused(status: int, error: string)

  /**
   * `createOrGetPrivateChat`: talking to oneself is a 400 and an unknown peer
   * a 404, both without any change; an existing private chat of the two is
   * returned as it is; otherwise one private chat is created with both users
   * as members. Either way the returned chat is the one a repeated request finds.
   */
  method CreateOrGetPrivateChat(store: ChatStore, db: Db, currentUserId: string, otherUserId: string,
                                chatId: string, now: Time) returns (r: PrivateReply)
    requires store.Valid() && db.Valid()
    requires chatId !in store.chats.entries
    modifies store
    ensures store.Valid()
    ensures currentUserId == otherUserId ==>
      r == PrivateRefused(400, "INVALID_USER") && store.chats == old(store.chats) && store.members == old(store.members)
    ensures currentUserId != otherUserId && otherUserId !in db.users.entries ==>
      r == PrivateRefused(404, "USER_NOT_FOUND") && store.chats == old(store.chats) && store.members == old(store.members)
    ensures currentUserId != otherUserId && otherUserId in db.users.entries ==>
      var existing := PrivateChatOf(old(store.chats.Values()), old(store.members.Values()), currentUserId, otherUserId);
      && r.PrivateOpened? && r.peer == PeerOf(db.users.entries[otherUserId])
      && (existing.Some? ==>
            r.chat == existing.value && store.chats == old(store.chats) && store.members == old(store.members))
      && (existing.None? ==>
            r.chat == Chat(chatId, Private, None, currentUserId, now, now)
            && store.chats == old(store.chats).Set(chatId, r.chat)
            && store.members == old(store.members)
                 .Set(MemberKey(chatId, currentUserId), Membership(chatId, currentUserId, Member, now, None))
                 .Set(MemberKey(chatId, otherUserId), Membership(chatId, otherUserId, Member, now, None)))
      && PrivateChatOf(store.chats.Values(), store.members.Values(), currentUserId, otherUserId) == Some(r.chat)
  {
    if currentUserId == otherUserId {
      return PrivateRefused(400, "INVALID_USER");
    }
    var otherUser := db.FindUserById(otherUserId);
    if otherUser.None? {
      return PrivateRefused(404, "USER_NOT_FOUND");
    }
    var chat := store.FindPrivateChat(currentUserId, otherUserId);
    if chat.None? {
      ghost var chats0, members0 := store.chats, store.members;
      var created := store.Create(chatId, Private, None, currentUserId, now);
      var ma := store.AddMember(chatId, currentUserId, None, now);
      var mb := store.AddMember(chatId, otherUserId, None, now);
      NewPrivateChatFound(chats0, members0, created, ma, mb);
      chat := Some(created);
    } else {
      PrivateChatOfSound(store.chats.Values(), store.members.Values(), currentUserId, otherUserId);
    }
    return PrivateOpened(chat.value, PeerOf(otherUser.value));
  }

  // ---- createGroup ----

  /** `memberIds` as the request body carries it. */
  datatype MemberIds = Missing | NotArray | Ids(ids: seq<string>)

  const MAX_GROUP_MEMBER_IDS := 199

  datatype GroupReply = GroupCreated(chat: Chat, memberCount: nat) | GroupRefused(status: int, error: string)

  function Unknown(users: map<string, User>): (p: string -> bool)
    ensures forall id :: p(id) == (id !in users)
  {
    (id: string) => id !in users
  }

  /** The checks of `createGroup`, in their order, before anything is created. */
  function GroupError(users: map<string, User>, name: JsString, memberIds: MemberIds): Option<GroupReply> {
    if !Truthy(name) || Trim(name.value) == "" then Some(GroupRefused(400, "INVALID_NAME"))
    else if !memberIds.Ids? || |memberIds.ids| == 0 then Some(GroupRefused(400, "INVALID_MEMBERS"))
    else if |memberIds.ids| > MAX_GROUP_MEMBER_IDS then Some(GroupRefused(400, "TOO_MANY_MEMBERS"))
    else if First(memberIds.ids, Unknown(users)).Some? then Some(GroupRefused(404, "USER_NOT_FOUND"))
    else None
  }

  /**
   * A group is created exactly when the name has a non-blank character, the
   * member list is a non-empty array of at most 199 ids, and every id names
   * a stored user; a blank name is reported first and an unknown id last.
   */
  lemma GroupErrorMeans(users: map<string, User>, name: JsString, memberIds: MemberIds)
    ensures GroupError(users, name, memberIds).None? <==>
      Truthy(name) && !AllWhitespace(name.value) && memberIds.Ids?
      && 1 <= |memberIds.ids| <= MAX_GROUP_MEMBER_IDS
      && forall id :: id in memberIds.ids ==> id in users
    ensures Truthy(name) && AllWhitespace(name.value) ==>
      GroupError(users, name, memberIds) == Some(GroupRefused(400, "INVALID_NAME"))
    ensures (Truthy(name) && !AllWhitespace(name.value) && memberIds.Ids?
             && 1 <= |memberIds.ids| <= MAX_GROUP_MEMBER_IDS
             && exists id :: id in memberIds.ids && id !in users)
      ==> GroupError(users, name, memberIds) == Some(GroupRefused(404, "USER_NOT_FOUND"))
  {
    if Truthy(name) { TrimEmpty(name.value); }
    if memberIds.Ids? { FirstSpec(memberIds.ids, Unknown(users)); }
  }

  /** The existence check loop of `createGroup`: the first id that names no user. */
  method FirstUnknownMember(db: Db, ids: seq<string>) returns (r: Option<string>)
    requires db.Valid()
    ensures r == First(ids, Unknown(db.users.entries))
  {
    var i := 0;
    while i < |ids|
      invariant 0 <= i <= |ids|
      invariant First(ids, Unknown(db.users.entries)) == First(ids[i..], Unknown(db.users.entries))
    {
      FirstFrom(ids, i, Unknown(db.users.entries));
      var user := db.FindUserById(ids[i]);
      if user.None? {
        return Some(ids[i]);
      }
      i := i + 1;
    }
    assert ids[i..] == [];
    return None;
  }

  /** The creator together with the requested members. */
  ghost function Joined(creator: string, ids: seq<string>): set<string> {
    {creator} + set x | x in ids
  }

  /**
   * `createGroup`: on a failed check nothing changes. Otherwise the group is
   * created under the trimmed name, the creator is its admin, every other
   * requested id is a member (a creator id in the list is not re-added), no
   * other membership changes, and the reply counts the distinct members.
   */
  method CreateGroup(store: ChatStore, db: Db, currentUserId: string, name: JsString, memberIds: MemberIds,
                     chatId: string, now: Time) returns (r: GroupReply)
    requires store.Valid() && db.Valid()
    requires chatId !in store.chats.entries
    requires forall k :: k in store.members.entries ==> store.members.entries[k].chatId != chatId
    modifies store
    ensures store.Valid()
    ensures GroupError(db.users.entries, name, memberIds).Some? ==>
      r == GroupError(db.users.entries, name, memberIds).value
      && store.chats == old(store.chats) && store.members == old(store.members)
    ensures GroupError(db.users.entries, name, memberIds).None? ==>
      var everyone := Joined(currentUserId, memberIds.ids);
      && r == GroupCreated(Chat(chatId, Group, Some(Trim(name.value)), currentUserId, now, now), |everyone|)
      && store.chats == old(store.chats).Set(chatId, r.chat)
      && MembersExactly(store.members, chatId, everyone)
      && store.members.entries[MemberKey(chatId, currentUserId)].role == Admin
      && (forall u :: u in memberIds.ids && u != currentUserId ==>
            store.members.entries[MemberKey(chatId, u)].role == Member)
      && (forall k :: (forall u :: u in everyone ==> k != MemberKey(chatId, u)) ==>
            store.members.Get(k) == old(store.members.Get(k)))
  {
    var err := GroupError(db.users.entries, name, memberIds);
    if !Truthy(name) || Trim(name.value) == "" {
      return GroupRefused(400, "INVALID_NAME");
    }
    if !memberIds.Ids? || |memberIds.ids| == 0 {
      return GroupRefused(400, "INVALID_MEMBERS");
    }
    var ids := memberIds.ids;
    if |ids| > MAX_GROUP_MEMBER_IDS {
      return GroupRefused(400, "TOO_MANY_MEMBERS");
    }
    var unknown := FirstUnknownMember(db, ids);
    if unknown.Some? {
      return GroupRefused(404, "USER_NOT_FOUND");
    }
    assert err.None?;
    var chat := store.Create(chatId, Group, Some(Trim(name.value)), currentUserId, now);
    ghost var members0 := store.members;
    var admin := store.AddMember(chatId, currentUserId, Some(Admin), now);
    AddKeepsExactly(members0, chatId, {}, admin);
    assert {} + {currentUserId} == Joined(currentUserId, []);
    AddGroupMembers(store, chatId, currentUserId, ids, now);
    forall k | (forall u :: u in Joined(currentUserId, ids) ==> k != MemberKey(chatId, u))
      ensures store.members.Get(k) == old(store.members.Get(k))
    {
      assert currentUserId in Joined(currentUserId, ids);
    }
    var members := store.GetMembers(chatId);
    MemberCount(store.members, chatId, Joined(currentUserId, ids));
    return GroupCreated(chat, |members|);
  }

  /**
   * The second loop of `createGroup`: every id other than the creator's
   * becomes a plain member of the new group.
   */
  method AddGroupMembers(store: ChatStore, chatId: string, creator: string, ids: seq<string>, now: Time)
    requires store.Valid()
    requires MembersExactly(store.members, chatId, {creator})
    requires store.members.entries[MemberKey(chatId, creator)].role == Admin
    modifies store
    ensures store.Valid()
    ensures store.chats == old(store.chats)
    ensures MembersExactly(store.members, chatId, Joined(creator, ids))
    ensures store.members.entries[MemberKey(chatId, creator)].role == Admin
    ensures forall u :: u in ids && u != creator ==> store.members.entries[MemberKey(chatId, u)].role == Member
    ensures forall k :: (forall u :: u in Joined(creator, ids) ==> k != MemberKey(chatId, u)) ==>
      store.members.Get(k) == old(store.members.Get(k))
  {
    assert {creator} == Joined(creator, ids[..0]);
    var i := 0;
    while i < |ids|
      invariant 0 <= i <= |ids|
      invariant store.Valid()
      invariant store.chats == old(store.chats)
      invariant MembersExactly(store.members, chatId, Joined(creator, ids[..i]))
      invariant store.members.entries[MemberKey(chatId, creator)].role == Admin
      invariant forall u :: u in ids[..i] && u != creator ==> store.members.entries[MemberKey(chatId, u)].role == Member
      invariant forall k :: (forall u :: u in Joined(creator, ids[..i]) ==> k != MemberKey(chatId, u)) ==>
        store.members.Get(k) == old(store.members.Get(k))
    {
      JoinStep(store, chatId, creator, ids, i, now);
      i := i + 1;
    }
    assert ids[..i] == ids;
  }

  /** One turn of that loop: the creator's id is skipped, any other becomes a member. */
  method JoinStep(store: ChatStore, chatId: string, creator: string, ids: seq<string>, i: nat, now: Time)
    requires i < |ids|
    requires store.Valid()
    requires MembersExactly(store.members, chatId, Joined(creator, ids[..i]))
    requires store.members.entries[MemberKey(chatId, creator)].role == Admin
    requires forall u :: u in ids[..i] && u != creator ==> store.members.entries[MemberKey(chatId, u)].role == Member
    modifies store
    ensures store.Valid()
    ensures store.chats == old(store.chats)
    ensures MembersExactly(store.members, chatId, Joined(creator, ids[..i + 1]))
    ensures store.members.entries[MemberKey(chatId, creator)].role == Admin
    ensures forall u :: u in ids[..i + 1] && u != creator ==> store.members.entries[MemberKey(chatId, u)].role == Member
    ensures forall k :: k != MemberKey(chatId, ids[i]) ==> store.members.Get(k) == old(store.members.Get(k))
  {
    assert ids[..i + 1] == ids[..i] + [ids[i]];
    if ids[i] != creator {
      AddOne(store, chatId, creator, ids, i, now);
    } else {
      assert Joined(creator, ids[..i]) == Joined(creator, ids[..i + 1]);
    }
  }

  /** One turn of that loop, for an id that is not the creator's. */
  method AddOne(store: ChatStore, chatId: string, creator: string, ids: seq<string>, i: nat, now: Time)
    requires i < |ids| && ids[i] != creator
    requires store.Valid()
    requires MembersExactly(store.members, chatId, Joined(creator, ids[..i]))
    requires store.members.entries[MemberKey(chatId, creator)].role == Admin
    requires forall u :: u in ids[..i] && u != creator ==> store.members.entries[MemberKey(chatId, u)].role == Member
    modifies store
    ensures store.Valid()
    ensures store.chats == old(store.chats)
    ensures store.members == old(store.members).Set(MemberKey(chatId, ids[i]), Membership(chatId, ids[i], Member, now, None))
    ensures MembersExactly(store.members, chatId, Joined(creator, ids[..i + 1]))
    ensures store.members.entries[MemberKey(chatId, creator)].role == Admin
    ensures forall u :: u in ids[..i + 1] && u != creator ==> store.members.entries[MemberKey(chatId, u)].role == Member
  {
    assert ids[..i + 1] == ids[..i] + [ids[i]];
    ghost var before := store.members;
    var m := store.AddMember(chatId, ids[i], Some(Member), now);
    AddKeepsExactly(before, chatId, Joined(creator, ids[..i]), m);
    assert Joined(creator, ids[..i]) + {ids[i]} == Joined(creator, ids[..i + 1]);
    forall u | u in ids[..i + 1] && u != creator
      ensures store.members.entries[MemberKey(chatId, u)].role == Member
    {
      if u != ids[i] {
        assert u in ids[..i];
        assert u in Joined(creator, ids[..i]);
      }
    }
  }

  // ---- getUserChats ----

  datatype LastMessage = LastMessage(content: string, timestamp: Time)

  /** One entry of the caller's chat list. */
  datatype ChatSummary =
    | PrivateSummary(chatId: string, peer: Peer, lastMessage: Option<LastMessage>, updatedAt: Time)
    | GroupSummary(chatId: string, name: Option<string>, memberCount: nat, lastMessage: Option<LastMessage>,
                   updatedAt: Time)

  /** The reply of `getUserChats`; `ServerError` is the 500 its catch sends. */
  datatype ChatsReply = ChatList(chats: seq<ChatSummary>) | ServerError

  function UpdatedAt(s: ChatSummary): Time { s.updatedAt }

  /** `messages[0] || null` for the newest-first page of length at most one. */
  function LastOf(page: seq<MessageModel.Message>): Option<LastMessage> {
    if |page| > 0 then Some(LastMessage(page[0].content, page[0].createdAt)) else None
  }

  function OtherThan(userId: string): (p: Membership -> bool)
    ensures forall m :: p(m) == (m.userId != userId)
  {
    (m: Membership) => m.userId != userId
  }

  /**
   * The entry for one chat. A private chat whose other member or other user
   * is missing makes the handler throw (`None`).
   */
  function Summarise(c: Chat, ms: seq<Membership>, page: seq<MessageModel.Message>,
                     users: map<string, User>, userId: string): Option<ChatSummary>
  {
    if c.kind == Private then
      var other := First(ms, OtherThan(userId));
      if other.None? || other.value.userId !in users then None
      else Some(PrivateSummary(c.id, PeerOf(users[other.value.userId]), LastOf(page), c.updatedAt))
    else
      Some(GroupSummary(c.id, c.name, |ms|, LastOf(page), c.updatedAt))
  }

  /** `Promise.all(chats.map(...))`: every entry, or `None` when one of them throws. */
  function Summaries(cs: seq<Chat>, members: seq<Membership>, messages: seq<MessageModel.Message>,
                     users: map<string, User>, userId: string): Option<seq<ChatSummary>>
  {
    if cs == [] then Some([])
    else
      var c := cs[|cs| - 1];
      match Summaries(cs[..|cs| - 1], members, messages, users, userId)
      case None => None
      case Some(ss) =>
        match Entry(c, members, messages, users, userId)
        case None => None
        case Some(s) => Some(ss + [s])
  }

  /** The entry of chat `c`, from its members and its newest message. */
  function Entry(c: Chat, members: seq<Membership>, messages: seq<MessageModel.Message>,
                 users: map<string, User>, userId: string): (r: Option<ChatSummary>)
    ensures r.Some? ==> r.value.chatId == c.id && r.value.updatedAt == c.updatedAt
  {
    Summarise(c, MembersOf(members, c.id), MessageModel.Page(messages, c.id, 1, None), users, userId)
  }

  /** Each chat gets one entry, in the same position, carrying its id and its `updatedAt`. */
  lemma {:induction false} SummariesAligned(cs: seq<Chat>, members: seq<Membership>,
                                            messages: seq<MessageModel.Message>, users: map<string, User>,
                                            userId: string, ss: seq<ChatSummary>)
    requires Summaries(cs, members, messages, users, userId) == Some(ss)
    ensures |ss| == |cs|
    ensures forall i :: 0 <= i < |cs| ==> ss[i].chatId == cs[i].id && ss[i].updatedAt == cs[i].updatedAt
  {
    if cs != [] {
      var init := cs[..|cs| - 1];
      var pre := Summaries(init, members, messages, users, userId).value;
      SummariesAligned(init, members, messages, users, userId, pre);
      var s := Entry(cs[|cs| - 1], members, messages, users, userId).value;
      assert ss == pre + [s];
      forall i | 0 <= i < |cs|
        ensures ss[i].chatId == cs[i].id && ss[i].updatedAt == cs[i].updatedAt
      {
        if i < |init| {
          assert ss[i] == pre[i] && cs[i] == init[i];
        } else {
          assert ss[i] == s;
        }
      }
    }
  }

  /** Once one chat's entry throws, so does the whole list. */
  lemma {:induction false} SummariesNoneExtends(cs: seq<Chat>, n: nat, members: seq<Membership>,
                                                messages: seq<MessageModel.Message>, users: map<string, User>,
                                                userId: string)
    requires n <= |cs| && Summaries(cs[..n], members, messages, users, userId).None?
    ensures Summaries(cs, members, messages, users, userId).None?
    decreases |cs| - n
  {
    if n < |cs| {
      assert cs[..n + 1][..n] == cs[..n];
      SummariesNoneExtends(cs, n + 1, members, messages, users, userId);
    } else {
      assert cs[..n] == cs;
    }
  }

  /** The reply of `getUserChats` for the chats `cs` of the caller. */
  function ChatListOf(cs: seq<Chat>, members: seq<Membership>, messages: seq<MessageModel.Message>,
                      users: map<string, User>, userId: string): ChatsReply
  {
    match Summaries(cs, members, messages, users, userId)
    case None => ServerError
    case Some(ss) => ChatList(SortDesc(ss, UpdatedAt))
  }

  /**
   * The chat list holds one entry per chat of the caller, is ordered by
   * `updatedAt`, newest first, and keeps chats updated at the same instant in
   * the order the store lists them.
   */
  lemma ChatListOrdered(cs: seq<Chat>, members: seq<Membership>, messages: seq<MessageModel.Message>,
                        users: map<string, User>, userId: string, t: Time)
    requires ChatListOf(cs, members, messages, users, userId).ChatList?
    ensures var r := ChatListOf(cs, members, messages, users, userId).chats;
      var ss := Summaries(cs, members, messages, users, userId).value;
      && SortedDesc(r, UpdatedAt)
      && multiset(r) == multiset(ss) && |r| == |cs|
      && WithKey(r, UpdatedAt, t) == WithKey(ss, UpdatedAt, t)
  {
    var ss := Summaries(cs, members, messages, users, userId).value;
    SummariesAligned(cs, members, messages, users, userId, ss);
    SortDescSorted(ss, UpdatedAt);
    SortDescStable(ss, UpdatedAt, t);
    assert |multiset(SortDesc(ss, UpdatedAt))| == |multiset(ss)|;
  }

  /** `getUserChats`: the caller's chats, their members and newest message, sorted by last update. */
  method GetUserChats(store: ChatStore, msgs: MessageModel.MessageStore, db: Db, userId: string)
    returns (r: ChatsReply)
    requires store.Valid() && msgs.Valid() && db.Valid()
    ensures r == ChatListOf(ChatsOf(store.members.Values(), store.chats.entries, userId),
                            store.members.Values(), msgs.messages.Values(), db.users.entries, userId)
  {
    var chats := store.GetUserChats(userId);
    var acc: seq<ChatSummary> := [];
    var i := 0;
    while i < |chats|
      invariant 0 <= i <= |chats|
      invariant Summaries(chats[..i], store.members.Values(), msgs.messages.Values(), db.users.entries, userId)
             == Some(acc)
    {
      var members := store.GetMembers(chats[i].id);
      var page := msgs.GetChatMessages(chats[i].id, 1, None);
      var s := Summarise(chats[i], members, page, db.users.entries, userId);
      assert s == Entry(chats[i], store.members.Values(), msgs.messages.Values(), db.users.entries, userId);
      assert chats[..i + 1][..i] == chats[..i];
      if s.None? {
        SummariesNoneExtends(chats, i + 1, store.members.Values(), msgs.messages.Values(), db.users.entries, userId);
        return ServerError;
      }
      acc := acc + [s.value];
      i := i + 1;
    }
    assert chats[..i] == chats;
    return ChatList(SortDesc(acc, UpdatedAt));
  }

  // ---- searchUsers ----

  /** The filter of the contact search: not the caller, and the query in any of five fields. */
  predicate ContactMatches(q: string, callerId: string, u: User) {
    var lower := ToLower(q);
    u.id != callerId
    && ((u.phone != "" && Includes(u.phone, q))
        || (u.firstName.Some? && u.firstName.value != "" && Includes(ToLower(u.firstName.value), lower))
        || (u.lastName.Some? && u.lastName.value != "" && Includes(ToLower(u.lastName.value), lower))
        || (u.username.Some? && u.username.value != "" && Includes(ToLower(u.username.value), lower))
        || (u.email.Some? && u.email.value != "" && Includes(ToLower(u.email.value), lower)))
  }

  function ContactFilter(q: string, callerId: string): (p: User -> bool)
    ensures forall u :: p(u) == ContactMatches(q, callerId, u)
  {
    (u: User) => ContactMatches(q, callerId, u)
  }

  /** `searchUsers` of the chat routes: the matching users (the reply projects their public fields). */
  function SearchContacts(db: Db, q: JsString, callerId: string): Result<seq<User>, string>
    requires db.Valid()
    reads db
  {
    if !Truthy(q) || |q.value| < 2 then Err("INVALID_QUERY")
    else Ok(Filter(db.AllUsers(), ContactFilter(q.value, callerId)))
  }

  /**
   * Queries shorter than 2 characters are refused; otherwise the result is
   * exactly the stored users other than the caller that match, so the caller
   * never appears, and an e-mail match is enough.
   */
  lemma SearchContactsSpec(db: Db, q: JsString, callerId: string, u: User)
    requires db.Valid()
    ensures SearchContacts(db, q, callerId).Ok? <==> Truthy(q) && |q.value| >= 2
    ensures SearchContacts(db, q, callerId).Ok? ==>
      (u in SearchContacts(db, q, callerId).value <==> u in db.users.entries.Values && ContactMatches(q.value, callerId, u))
    ensures SearchContacts(db, q, callerId).Ok? && u.id == callerId ==> u !in SearchContacts(db, q, callerId).value
    ensures (SearchContacts(db, q, callerId).Ok? && u in db.users.entries.Values && u.id != callerId
             && u.email.Some? && u.email.value != "" && Includes(ToLower(u.email.value), ToLower(q.value)))
      ==> u in SearchContacts(db, q, callerId).value
  {
    if Truthy(q) && |q.value| >= 2 {
      FilterMembership(db.AllUsers(), ContactFilter(q.value, callerId), u);
    }
  }
}
