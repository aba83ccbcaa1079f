/**
 * The conversation store of backend/src/models/Chat.js: a `Map` of chats keyed
 * by id and a `Map` of memberships keyed by `chatId:userId`.
 */
module ChatModel {
  import opened Wrappers
  import opened Seqs
  import opened OrderedMaps

  type Time = int

  datatype ChatKind = Private | Group

  datatype Chat = Chat(id: string, kind: ChatKind, name: Option<string>, createdBy: string,
                       createdAt: Time, updatedAt: Time)

  datatype Role = Admin | Member

  datatype Membership = Membership(chatId: string, userId: string, role: Role, joinedAt: Time,
                                   lastReadMessageId: Option<string>)

  /** The key `${chatId}:${userId}` of the membership map. */
  function MemberKey(chatId: string, userId: string): (k: string)
    ensures |k| == |chatId| + 1 + |userId|
  {
    chatId + ":" + userId
  }

  /** `name || null`: an absent or empty name is stored as null. */
  function StoredName(name: Option<string>): (r: Option<string>)
    ensures r.Some? <==> name.Some? && name.value != ""
    ensures r.Some? ==> r == name
  {
    if name.Some? && name.value != "" then name else None
  }

  function InChat(chatId: string): (p: Membership -> bool)
    ensures forall m :: p(m) == (m.chatId == chatId)
  {
    (m: Membership) => m.chatId == chatId
  }

  /** `getMembers(chatId)` over the memberships in map order. */
  function MembersOf(ms: seq<Membership>, chatId: string): seq<Membership>
  {
    Filter(ms, InChat(chatId))
  }

  /** Every membership is stored under the key of its own (chat, user) pair. */
  ghost predicate KeyedByPair(members: OrderedMap<string, Membership>) {
    forall k :: k in members.entries ==> k == MemberKey(members.entries[k].chatId, members.entries[k].userId)
  }

  /** Keys of the same chat differ exactly when the users differ. */
  lemma MemberKeySameChat(chatId: string, u1: string, u2: string)
    ensures MemberKey(chatId, u1) == MemberKey(chatId, u2) <==> u1 == u2
  {
    if MemberKey(chatId, u1) == MemberKey(chatId, u2) {
      assert MemberKey(chatId, u1)[|chatId| + 1..] == u1;
      assert MemberKey(chatId, u2)[|chatId| + 1..] == u2;
    }
  }

  /** `members.map(m => m.userId)`. */
  function UserIds(ms: seq<Membership>): (r: seq<string>)
    ensures |r| == |ms|
    ensures forall i :: 0 <= i < |ms| ==> r[i] == ms[i].userId
  {
    if ms == [] then [] else [ms[0].userId] + UserIds(ms[1..])
  }

  /** `getUserChats(userId)`: for each membership of the user, in map order, its chat if it exists. */
  function ChatsOf(ms: seq<Membership>, chats: map<string, Chat>, userId: string): (r: seq<Chat>)
  {
    if ms == [] then []
    else
      var m := ms[|ms| - 1];
      ChatsOf(ms[..|ms| - 1], chats, userId)
        + (if m.userId == userId && m.chatId in chats then [chats[m.chatId]] else [])
  }

  /** Both users hold a membership of a private chat. */
  predicate IsPrivateWith(c: Chat, ms: seq<Membership>, a: string, b: string) {
    c.kind == Private && a in UserIds(MembersOf(ms, c.id)) && b in UserIds(MembersOf(ms, c.id))
  }

  /** `findPrivateChat(a, b)`: the first chat, in map order, that is private with both users. */
  function PrivateChatOf(cs: seq<Chat>, ms: seq<Membership>, a: string, b: string): Option<Chat>
  {
    First(cs, (c: Chat) => IsPrivateWith(c, ms, a, b))
  }

  /** `getMembers(c)` returns exactly the memberships of chat `c`. */
  lemma MembersOfExact(ms: seq<Membership>, chatId: string, m: Membership)
    ensures m in MembersOf(ms, chatId) <==> m in ms && m.chatId == chatId
  {
    FilterMembership(ms, InChat(chatId), m);
  }

  /** `getUserChats(u)` returns exactly the stored chats in which `u` holds a membership. */
  lemma {:induction false} ChatsOfExact(ms: seq<Membership>, chats: map<string, Chat>, userId: string, c: Chat)
    ensures c in ChatsOf(ms, chats, userId) <==>
      exists m :: m in ms && m.userId == userId && m.chatId in chats && chats[m.chatId] == c
  {
    if ms != [] {
      var last := ms[|ms| - 1];
      var init := ms[..|ms| - 1];
      assert ms == init + [last];
      ChatsOfExact(init, chats, userId, c);
      if c in ChatsOf(init, chats, userId) {
        var m :| m in init && m.userId == userId && m.chatId in chats && chats[m.chatId] == c;
        assert m in ms;
      }
      if exists m :: m in ms && m.userId == userId && m.chatId in chats && chats[m.chatId] == c {
        var m :| m in ms && m.userId == userId && m.chatId in chats && chats[m.chatId] == c;
        if m != last { assert m in init; }
      }
    }
  }

  /**
   * A found chat is private and has both users as members; `None` means that no
   * chat is, and a found chat is the first such in map order.
   */
  lemma PrivateChatOfSound(cs: seq<Chat>, ms: seq<Membership>, a: string, b: string)
    ensures PrivateChatOf(cs, ms, a, b).Some? ==>
      var c := PrivateChatOf(cs, ms, a, b).value;
      c in cs && IsPrivateWith(c, ms, a, b)
      && exists i :: 0 <= i < |cs| && cs[i] == c && forall j :: 0 <= j < i ==> !IsPrivateWith(cs[j], ms, a, b)
    ensures PrivateChatOf(cs, ms, a, b).None? <==> forall c :: c in cs ==> !IsPrivateWith(c, ms, a, b)
  {
    FirstSpec(cs, (c: Chat) => IsPrivateWith(c, ms, a, b));
  }

  class ChatStore {
    var chats: OrderedMap<string, Chat>
    var members: OrderedMap<string, Membership>

    /** Every chat is stored under its own id, every membership under its pair's key. */
    ghost predicate Valid()
      reads this
    {
      && chats.Valid() && members.Valid()
      && (forall id :: id in chats.entries ==> chats.entries[id].id == id)
      && KeyedByPair(members)
    }

    constructor ()
      ensures Valid() && chats == Empty() && members == Empty()
    {
      chats := Empty();
      members := Empty();
    }

    /** `Chat.create`: a new chat whose name is null unless a non-empty one is given. */
    method Create(id: string, kind: ChatKind, name: Option<string>, createdBy: string, now: Time)
      returns (c: Chat)
      requires Valid()
      modifies this
      ensures Valid()
      ensures c == Chat(id, kind, StoredName(name), createdBy, now, now)
      ensures chats == old(chats).Set(id, c) && members == old(members)
      ensures FindById(id) == Some(c)
    {
      c := Chat(id, kind, StoredName(name), createdBy, now, now);
      chats := chats.Set(id, c);
    }

    /** `Chat.findById`: the chat stored under `id`, or null. */
    function FindById(id: string): (r: Option<Chat>)
      requires Valid()
      reads this
      ensures r.Some? <==> id in chats.entries
      ensures r.Some? ==> r.value.id == id
    {
      chats.Get(id)
    }

    /** The in-place `chat.updatedAt = new Date()` that `send_message` applies. */
    method Touch(id: string, now: Time)
      requires Valid()
      modifies this
      ensures Valid()
      ensures id in old(chats.entries) ==>
        chats == old(chats).Set(id, old(chats.entries[id]).(updatedAt := now))
      ensures id !in old(chats.entries) ==> chats == old(chats)
      ensures members == old(members)
    {
      if id in chats.entries {
        chats := chats.Set(id, chats.entries[id].(updatedAt := now));
      }
    }

    /**
     * `Chat.addMember`: role defaults to `'member'`, no message read yet; a
     * second call for the same pair replaces the first record in place.
     */
    method AddMember(chatId: string, userId: string, role: Option<Role>, now: Time)
      returns (m: Membership)
      requires Valid()
      modifies this
      ensures Valid()
      ensures m == Membership(chatId, userId, role.GetOr(Member), now, None)
      ensures members == old(members).Set(MemberKey(chatId, userId), m)
      ensures chats == old(chats)
    {
      m := Membership(chatId, userId, role.GetOr(Member), now, None);
      members := members.Set(MemberKey(chatId, userId), m);
    }

    /** `Chat.getMembers`: the memberships of the chat, in map order. */
    method GetMembers(chatId: string) returns (r: seq<Membership>)
      requires Valid()
      ensures r == MembersOf(members.Values(), chatId)
    {
      r := [];
      var i := 0;
      while i < |members.keys|
        invariant 0 <= i <= |members.keys|
        invariant r == Filter(members.Values()[..i], InChat(chatId))
      {
        var member := members.entries[members.keys[i]];
        FilterStep(members.Values(), i, InChat(chatId));
        if member.chatId == chatId {
          r := r + [member];
        }
        i := i + 1;
      }
      assert members.Values()[..i] == members.Values();
    }

    /** `Chat.getUserChats`: the existing chats of the user's memberships, in map order. */
    method GetUserChats(userId: string) returns (r: seq<Chat>)
      requires Valid()
      ensures r == ChatsOf(members.Values(), chats.entries, userId)
    {
      r := [];
      var i := 0;
      while i < |members.keys|
        invariant 0 <= i <= |members.keys|
        invariant r == ChatsOf(members.Values()[..i], chats.entries, userId)
      {
        var member := members.entries[members.keys[i]];
        assert members.Values()[..i + 1][..i] == members.Values()[..i];
        if member.userId == userId {
          var chat := chats.Get(member.chatId);
          if chat.Some? {
            r := r + [chat.value];
          }
        }
        i := i + 1;
      }
      assert members.Values()[..i] == members.Values();
    }

    /** `Chat.findPrivateChat`: the first private chat holding both users, or null. */
    method FindPrivateChat(user1Id: string, user2Id: string) returns (r: Option<Chat>)
      requires Valid()
      ensures r == PrivateChatOf(chats.Values(), members.Values(), user1Id, user2Id)
    {
      var cs, all := chats.Values(), members.Values();
      var i := 0;
      while i < |chats.keys|
        invariant 0 <= i <= |chats.keys|
        invariant PrivateChatOf(cs, members.Values(), user1Id, user2Id)
               == PrivateChatOf(cs[i..], members.Values(), user1Id, user2Id)
      {
        var chat := chats.entries[chats.keys[i]];
        FirstFrom(cs, i, (c: Chat) => IsPrivateWith(c, all, user1Id, user2Id));
        if chat.kind == Private {
          var ms := GetMembers(chat.id);
          var memberIds := UserIds(ms);
          if user1Id in memberIds && user2Id in memberIds {
            return Some(chat);
          }
        }
        i := i + 1;
      }
      assert cs[i..] == [];
      return None;
    }
  }

  /**
   * Memberships are keyed by their pair, so the store never holds two
   * memberships for the same (chat, user).
   */
  lemma AtMostOneMembershipPerPair(members: OrderedMap<string, Membership>)
    requires members.Valid() && KeyedByPair(members)
    ensures forall i, j :: 0 <= i < j < |members.keys| ==>
      (members.Values()[i].chatId, members.Values()[i].userId)
      != (members.Values()[j].chatId, members.Values()[j].userId)
  {
    forall i, j | 0 <= i < j < |members.keys|
      ensures (members.Values()[i].chatId, members.Values()[i].userId)
           != (members.Values()[j].chatId, members.Values()[j].userId)
    {
      assert members.keys[i] != members.keys[j];
    }
  }

  lemma UserIdsMembership(ms: seq<Membership>, u: string)
    ensures u in UserIds(ms) <==> exists m :: m in ms && m.userId == u
  {
    if u in UserIds(ms) {
      var i :| 0 <= i < |ms| && UserIds(ms)[i] == u;
      assert ms[i] in ms;
    }
    if exists m :: m in ms && m.userId == u {
      var m :| m in ms && m.userId == u;
      var i :| 0 <= i < |ms| && ms[i] == m;
      assert UserIds(ms)[i] == u;
    }
  }

  /** The memberships of `chatId` are one per user of `users`, and no others. */
  ghost predicate MembersExactly(members: OrderedMap<string, Membership>, chatId: string, users: set<string>) {
    && (forall u :: u in users ==>
          MemberKey(chatId, u) in members.entries
          && members.entries[MemberKey(chatId, u)].chatId == chatId
          && members.entries[MemberKey(chatId, u)].userId == u)
    && (forall k :: k in members.entries && members.entries[k].chatId == chatId ==>
          members.entries[k].userId in users)
  }

  /** Two stored memberships of the same pair are the same record. */
  lemma PairDeterminesMembership(members: OrderedMap<string, Membership>, m1: Membership, m2: Membership)
    requires members.Valid() && KeyedByPair(members)
    requires m1 in members.entries.Values && m2 in members.entries.Values
    requires m1.chatId == m2.chatId && m1.userId == m2.userId
    ensures m1 == m2
  {
    var k1 :| k1 in members.entries && members.entries[k1] == m1;
    var k2 :| k2 in members.entries && members.entries[k2] == m2;
  }

  /** The users of a chat's member list are pairwise distinct. */
  lemma MemberIdsDistinct(members: OrderedMap<string, Membership>, chatId: string)
    requires members.Valid() && KeyedByPair(members)
    ensures Distinct(UserIds(MembersOf(members.Values(), chatId)))
  {
    var vs := members.Values();
    var ms := MembersOf(vs, chatId);
    var ids := UserIds(ms);
    ValuesExact(members);
    assert Distinct(vs) by {
      forall x, y | 0 <= x < y < |vs| ensures vs[x] != vs[y] {
        assert members.keys[x] != members.keys[y];
      }
    }
    FilterDistinct(vs, InChat(chatId));
    forall i, j | 0 <= i < j < |ids| ensures ids[i] != ids[j] {
      MembersOfExact(vs, chatId, ms[i]);
      MembersOfExact(vs, chatId, ms[j]);
      if ids[i] == ids[j] {
        PairDeterminesMembership(members, ms[i], ms[j]);
      }
    }
  }

  /** The users of a chat's member list are exactly `users`. */
  lemma MemberIdsExactly(members: OrderedMap<string, Membership>, chatId: string, users: set<string>)
    requires members.Valid() && KeyedByPair(members) && MembersExactly(members, chatId, users)
    ensures forall u :: u in UserIds(MembersOf(members.Values(), chatId)) <==> u in users
  {
    var vs := members.Values();
    var ms := MembersOf(vs, chatId);
    ValuesExact(members);
    forall u ensures u in UserIds(ms) <==> u in users {
      UserIdsMembership(ms, u);
      if u in UserIds(ms) {
        var m :| m in ms && m.userId == u;
        MembersOfExact(vs, chatId, m);
        var k :| k in members.entries && members.entries[k] == m;
      }
      if u in users {
        MembersOfExact(vs, chatId, members.entries[MemberKey(chatId, u)]);
      }
    }
  }

  /** `getMembers(c).length` counts the distinct users holding a membership of `c`. */
  lemma MemberCount(members: OrderedMap<string, Membership>, chatId: string, users: set<string>)
    requires members.Valid() && KeyedByPair(members) && MembersExactly(members, chatId, users)
    ensures |MembersOf(members.Values(), chatId)| == |users|
    ensures forall u :: u in UserIds(MembersOf(members.Values(), chatId)) <==> u in users
  {
    var ids := UserIds(MembersOf(members.Values(), chatId));
    MemberIdsDistinct(members, chatId);
    MemberIdsExactly(members, chatId, users);
    DistinctCard(ids);
    assert (set x | x in ids) == users;
  }

  /**
   * Adding a membership of some other chat under any key gives chat `c` no
   * new member (it can only overwrite an entry whose key collides).
   */
  lemma SetGivesNoNewMember(members: OrderedMap<string, Membership>, k: string, m: Membership, c: string, u: string)
    requires members.Valid() && m.chatId != c
    requires u in UserIds(MembersOf(members.Set(k, m).Values(), c))
    ensures u in UserIds(MembersOf(members.Values(), c))
  {
    var after := members.Set(k, m);
    UserIdsMembership(MembersOf(after.Values(), c), u);
    var e :| e in MembersOf(after.Values(), c) && e.userId == u;
    MembersOfExact(after.Values(), c, e);
    ValuesExact(after);
    ValuesExact(members);
    var key :| key in after.entries && after.entries[key] == e;
    assert key != k;
    assert e in members.Values();
    MembersOfExact(members.Values(), c, e);
    UserIdsMembership(MembersOf(members.Values(), c), u);
  }

  /**
   * When no private chat of `a` and `b` exists, creating one under a fresh id
   * and adding both users makes it the one `findPrivateChat` finds, so a
   * second request returns the same chat.
   */
  lemma NewPrivateChatFound(chats: OrderedMap<string, Chat>, members: OrderedMap<string, Membership>,
                            c: Chat, ma: Membership, mb: Membership)
    requires chats.Valid() && members.Valid()
    requires forall id :: id in chats.entries ==> chats.entries[id].id == id
    requires c.id !in chats.entries && c.kind == Private
    requires ma.chatId == c.id && mb.chatId == c.id && ma.userId != mb.userId
    requires PrivateChatOf(chats.Values(), members.Values(), ma.userId, mb.userId).None?
    ensures PrivateChatOf(chats.Set(c.id, c).Values(),
                          members.Set(MemberKey(c.id, ma.userId), ma).Set(MemberKey(c.id, mb.userId), mb).Values(),
                          ma.userId, mb.userId) == Some(c)
  {
    var a, b := ma.userId, mb.userId;
    var m2 := members.Set(MemberKey(c.id, a), ma).Set(MemberKey(c.id, b), mb);
    var cs := chats.Values();
    assert chats.Set(c.id, c).Values() == cs + [c];
    OldChatsStayUnshared(chats, members, c, ma, mb);
    NewChatShared(members, c, ma, mb);
    PrivateChatOfSnoc(cs, m2.Values(), a, b, c);
  }

  /** A private chat of the two users placed after chats that are not is the one found. */
  lemma PrivateChatOfSnoc(cs: seq<Chat>, ms: seq<Membership>, a: string, b: string, c: Chat)
    requires forall x :: x in cs ==> !IsPrivateWith(x, ms, a, b)
    requires IsPrivateWith(c, ms, a, b)
    ensures PrivateChatOf(cs + [c], ms, a, b) == Some(c)
  {
    FirstSnoc(cs, c, (x: Chat) => IsPrivateWith(x, ms, a, b));
  }

  /** The chats that existed before the new one still are not private chats of the two users. */
  lemma OldChatsStayUnshared(chats: OrderedMap<string, Chat>, members: OrderedMap<string, Membership>,
                             c: Chat, ma: Membership, mb: Membership)
    requires chats.Valid() && members.Valid()
    requires forall id :: id in chats.entries ==> chats.entries[id].id == id
    requires c.id !in chats.entries
    requires ma.chatId == c.id && mb.chatId == c.id
    requires PrivateChatOf(chats.Values(), members.Values(), ma.userId, mb.userId).None?
    ensures forall x :: x in chats.Values() ==>
      !IsPrivateWith(x, members.Set(MemberKey(c.id, ma.userId), ma).Set(MemberKey(c.id, mb.userId), mb).Values(),
                     ma.userId, mb.userId)
  {
    var a, b := ma.userId, mb.userId;
    var m1 := members.Set(MemberKey(c.id, a), ma);
    var m2 := m1.Set(MemberKey(c.id, b), mb);
    var cs := chats.Values();
    PrivateChatOfSound(cs, members.Values(), a, b);
    ValuesExact(chats);
    forall x | x in cs ensures !IsPrivateWith(x, m2.Values(), a, b) {
      assert x.id != c.id;
      assert !IsPrivateWith(x, members.Values(), a, b);
      if a in UserIds(MembersOf(m2.Values(), x.id)) && b in UserIds(MembersOf(m2.Values(), x.id)) {
        SetGivesNoNewMember(m1, MemberKey(c.id, b), mb, x.id, a);
        SetGivesNoNewMember(members, MemberKey(c.id, a), ma, x.id, a);
        SetGivesNoNewMember(m1, MemberKey(c.id, b), mb, x.id, b);
        SetGivesNoNewMember(members, MemberKey(c.id, a), ma, x.id, b);
      }
    }
  }

  /** The new chat, with both memberships added, is private with the two users. */
  lemma NewChatShared(members: OrderedMap<string, Membership>, c: Chat, ma: Membership, mb: Membership)
    requires members.Valid()
    requires c.kind == Private && ma.chatId == c.id && mb.chatId == c.id && ma.userId != mb.userId
    ensures IsPrivateWith(c, members.Set(MemberKey(c.id, ma.userId), ma).Set(MemberKey(c.id, mb.userId), mb).Values(),
                          ma.userId, mb.userId)
  {
    var a, b := ma.userId, mb.userId;
    var m2 := members.Set(MemberKey(c.id, a), ma).Set(MemberKey(c.id, b), mb);
    MemberKeySameChat(c.id, a, b);
    ValuesExact(m2);
    assert m2.entries[MemberKey(c.id, a)] == ma;
    assert ma in m2.Values() && mb in m2.Values();
    MembersOfExact(m2.Values(), c.id, ma);
    MembersOfExact(m2.Values(), c.id, mb);
    UserIdsMembership(MembersOf(m2.Values(), c.id), a);
    UserIdsMembership(MembersOf(m2.Values(), c.id), b);
  }

  /**
   * `addMember(chatId, u)` extends the member set of `chatId` by `u` and
   * leaves every other user's membership of that chat as it was.
   */
  lemma AddKeepsExactly(members: OrderedMap<string, Membership>, chatId: string, users: set<string>, m: Membership)
    requires members.Valid() && KeyedByPair(members) && MembersExactly(members, chatId, users)
    requires m.chatId == chatId
    ensures KeyedByPair(members.Set(MemberKey(chatId, m.userId), m))
    ensures MembersExactly(members.Set(MemberKey(chatId, m.userId), m), chatId, users + {m.userId})
    ensures forall u :: u != m.userId ==>
      members.Set(MemberKey(chatId, m.userId), m).Get(MemberKey(chatId, u)) == members.Get(MemberKey(chatId, u))
  {
    var after := members.Set(MemberKey(chatId, m.userId), m);
    forall u | u != m.userId ensures after.Get(MemberKey(chatId, u)) == members.Get(MemberKey(chatId, u)) {
      MemberKeySameChat(chatId, u, m.userId);
    }
  }
}
