/**
 * The message store of backend/src/models/Message.js: a `Map` of messages keyed
 * by id and a `Map` of per-(message, user) delivery statuses keyed by
 * `messageId:userId`. Clock readings (`new Date()`) and generated ids are
 * parameters.
 */
module MessageModel {
  import opened Wrappers
  import opened Seqs
  import opened Sorting
  import opened OrderedMaps

  type Time = int

  datatype Message = Message(
    id: string,
    chatId: string,
    senderId: string,
    content: string,
    messageType: string,
    replyToId: Option<string>,
    status: string,
    createdAt: Time,
    updatedAt: Time,
    deletedAt: Option<Time>)

  datatype StatusEntry = StatusEntry(messageId: string, userId: string, status: string, timestamp: Time)

  /** The key `${messageId}:${userId}` of the status map. */
  function StatusKey(messageId: string, userId: string): (k: string)
    ensures |k| == |messageId| + 1 + |userId| && k[|messageId|] == ':'
  {
    messageId + ":" + userId
  }

  /**
   * Ids the store generates (`Date.now().toString() + Math.random()`) are made
   * of digits and a decimal point, so they contain no colon.
   */
  predicate ColonFree(s: string) {
    ':' !in s
  }

  /** With colon-free message ids, distinct (message, user) pairs get distinct keys. */
  lemma StatusKeyInjective(m1: string, u1: string, m2: string, u2: string)
    requires ColonFree(m1) && ColonFree(m2)
    requires StatusKey(m1, u1) == StatusKey(m2, u2)
    ensures m1 == m2 && u1 == u2
  {
    var k := StatusKey(m1, u1);
    assert |m1| == |m2| by {
      if |m1| < |m2| {
        assert k[|m1|] == ':';
      }
    }
    assert m1 == k[..|m1|] == m2;
    assert u1 == k[|m1| + 1..] == u2;
  }

  /** The record `delete` leaves behind. */
  function Tombstone(m: Message, now: Time): (t: Message)
    ensures t.id == m.id && t.chatId == m.chatId && t.createdAt == m.createdAt
    ensures t.content == "" && t.deletedAt == Some(now)
  {
    m.(deletedAt := Some(now), content := "")
  }

  /** The test of the loop in `getChatMessages`: the chat matches, not deleted, older than the cursor. */
  predicate InPage(m: Message, chatId: string, before: Option<Time>) {
    m.chatId == chatId && m.deletedAt.None? && (before.None? || m.createdAt < before.value)
  }

  function Qualifying(chatId: string, before: Option<Time>): (p: Message -> bool)
    ensures forall m :: p(m) == InPage(m, chatId, before)
  {
    (m: Message) => InPage(m, chatId, before)
  }

  function CreatedAt(m: Message): Time { m.createdAt }

  /**
   * `getChatMessages(chatId, limit, before)` over the stored messages in map
   * order: keep the qualifying ones, sort newest-first (stable), `slice(0, limit)`.
   */
  function Page(stored: seq<Message>, chatId: string, limit: int, before: Option<Time>): seq<Message>
  {
    SliceTo(SortDesc(Filter(stored, Qualifying(chatId, before)), CreatedAt), limit)
  }

  /** Every message of a page belongs to the chat, is not deleted and is older than the cursor. */
  lemma PageQualifies(stored: seq<Message>, chatId: string, limit: int, before: Option<Time>)
    ensures forall m :: m in Page(stored, chatId, limit, before) ==>
      m in stored && m.chatId == chatId && m.deletedAt.None?
      && (before.Some? ==> m.createdAt < before.value)
  {
    var q := Filter(stored, Qualifying(chatId, before));
    var s := SortDesc(q, CreatedAt);
    forall m | m in Page(stored, chatId, limit, before)
      ensures m in stored && InPage(m, chatId, before)
    {
      assert m in s;
      assert m in multiset(q);
    }
  }

  /** A page is newest-first and, for a non-negative limit, at most `limit` long. */
  lemma PageOrderedAndBounded(stored: seq<Message>, chatId: string, limit: int, before: Option<Time>)
    ensures SortedDesc(Page(stored, chatId, limit, before), CreatedAt)
    ensures 0 <= limit ==> |Page(stored, chatId, limit, before)| <= limit
  {
    var s := SortDesc(Filter(stored, Qualifying(chatId, before)), CreatedAt);
    SortDescSorted(Filter(stored, Qualifying(chatId, before)), CreatedAt);
    var r := Page(stored, chatId, limit, before);
    assert r == s[..|r|];
  }

  /**
   * A page is the newest part of the qualifying messages: a qualifying message
   * left out is no newer than any message returned, and when the page is
   * shorter than a non-negative limit nothing qualifying was left out.
   */
  lemma PageIsNewest(stored: seq<Message>, chatId: string, limit: int, before: Option<Time>)
    ensures forall x, y ::
              (x in stored && InPage(x, chatId, before) && x !in Page(stored, chatId, limit, before)
               && y in Page(stored, chatId, limit, before))
              ==> x.createdAt <= y.createdAt
    ensures 0 <= limit && |Page(stored, chatId, limit, before)| < limit ==>
      multiset(Page(stored, chatId, limit, before)) == multiset(Filter(stored, Qualifying(chatId, before)))
  {
    var q := Filter(stored, Qualifying(chatId, before));
    var s := SortDesc(q, CreatedAt);
    SortDescSorted(q, CreatedAt);
    var r := Page(stored, chatId, limit, before);
    assert r == s[..|r|];
    forall x, y | x in stored && InPage(x, chatId, before) && x !in r && y in r
      ensures x.createdAt <= y.createdAt
    {
      FilterComplete(stored, Qualifying(chatId, before), x);
      assert x in multiset(s);
      var j :| 0 <= j < |s| && s[j] == x;
      var i :| 0 <= i < |r| && r[i] == y;
      if j < |r| { assert false; }
    }
    if 0 <= limit && |r| < limit {
      assert r == s;
    }
  }

  /** Messages created in the same instant keep the map's insertion order in a page. */
  lemma PageTiesInInsertionOrder(stored: seq<Message>, chatId: string, before: Option<Time>, t: Time)
    ensures WithKey(Page(stored, chatId, |stored|, before), CreatedAt, t)
         == WithKey(Filter(stored, Qualifying(chatId, before)), CreatedAt, t)
  {
    var q := Filter(stored, Qualifying(chatId, before));
    SortDescStable(q, CreatedAt, t);
    assert Page(stored, chatId, |stored|, before) == SortDesc(q, CreatedAt);
  }

  /** A page never shows a message whose record has been soft-deleted. */
  lemma PageOmitsDeleted(stored: seq<Message>, chatId: string, limit: int, before: Option<Time>, m: Message)
    requires m.deletedAt.Some?
    ensures m !in Page(stored, chatId, limit, before)
  {
    PageQualifies(stored, chatId, limit, before);
  }

  class MessageStore {
    var messages: OrderedMap<string, Message>
    var statuses: OrderedMap<string, StatusEntry>

    /** Each message is stored under its own id and each status under its pair's key. */
    ghost predicate Valid()
      reads this
    {
      && messages.Valid() && statuses.Valid()
      && (forall id :: id in messages.entries ==> messages.entries[id].id == id)
      && (forall k :: k in statuses.entries ==>
            k == StatusKey(statuses.entries[k].messageId, statuses.entries[k].userId))
    }

    constructor ()
      ensures Valid() && messages == Empty() && statuses == Empty()
    {
      messages := Empty();
      statuses := Empty();
    }

    /** `Message.create`: a new record with status `'sent'` and no deletion time. */
    method Create(id: string, chatId: string, senderId: string, content: string,
                  messageType: Option<string>, replyToId: Option<string>, now: Time)
      returns (m: Message)
      requires Valid()
      modifies this
      ensures Valid()
      ensures m == Message(id, chatId, senderId, content, messageType.GetOr("text"),
                           replyToId, "sent", now, now, None)
      ensures messages == old(messages).Set(id, m) && statuses == old(statuses)
      ensures FindById(id) == Some(m)
    {
      m := Message(id, chatId, senderId, content, messageType.GetOr("text"),
                   replyToId, "sent", now, now, None);
      messages := messages.Set(id, m);
    }

    /** `Message.findById`: the record stored under `id`, or null. */
    function FindById(id: string): (r: Option<Message>)
      requires Valid()
      reads this
      ensures r.Some? <==> id in messages.entries
      ensures r.Some? ==> r.value.id == id && r.value in messages.Values()
    {
      if id in messages.entries then
        var i :| 0 <= i < |messages.keys| && messages.keys[i] == id;
        assert messages.Values()[i] == messages.entries[id];
        Some(messages.entries[id])
      else None
    }

    /** `Message.getChatMessages`: the loop over all messages, then sort and slice. */
    method GetChatMessages(chatId: string, limit: int, before: Option<Time>) returns (r: seq<Message>)
      requires Valid()
      ensures r == Page(messages.Values(), chatId, limit, before)
    {
      var chatMessages: seq<Message> := [];
      var i := 0;
      while i < |messages.keys|
        invariant 0 <= i <= |messages.keys|
        invariant chatMessages == Filter(messages.Values()[..i], Qualifying(chatId, before))
      {
        var message := messages.entries[messages.keys[i]];
        FilterStep(messages.Values(), i, Qualifying(chatId, before));
        if message.chatId == chatId && message.deletedAt.None? {
          if before.None? || message.createdAt < before.value {
            chatMessages := chatMessages + [message];
          }
        }
        i := i + 1;
      }
      assert messages.Values()[..i] == messages.Values();
      r := SliceTo(SortDesc(chatMessages, CreatedAt), limit);
    }

    /** `Message.updateStatus`: set the status of the pair, replacing an earlier one. */
    method UpdateStatus(messageId: string, userId: string, status: string, now: Time)
      requires Valid()
      modifies this
      ensures Valid()
      ensures statuses == old(statuses).Set(StatusKey(messageId, userId),
                                            StatusEntry(messageId, userId, status, now))
      ensures messages == old(messages)
    {
      statuses := statuses.Set(StatusKey(messageId, userId), StatusEntry(messageId, userId, status, now));
    }

    /** The status recorded for a (message, user) pair. */
    function StatusOf(messageId: string, userId: string): (r: Option<StatusEntry>)
      requires Valid()
      reads this
      ensures r.Some? ==> r.value.messageId + ":" + r.value.userId == messageId + ":" + userId
    {
      statuses.Get(StatusKey(messageId, userId))
    }

    /** `Message.getMessageStatus`: every status entry of the given message, in map order. */
    method GetMessageStatus(messageId: string) returns (r: seq<StatusEntry>)
      requires Valid()
      ensures forall e :: e in r <==> e in statuses.Values() && e.messageId == messageId
      ensures r == Filter(statuses.Values(), (e: StatusEntry) => e.messageId == messageId)
    {
      var p := (e: StatusEntry) => e.messageId == messageId;
      r := [];
      var i := 0;
      while i < |statuses.keys|
        invariant 0 <= i <= |statuses.keys|
        invariant r == Filter(statuses.Values()[..i], p)
      {
        var status := statuses.entries[statuses.keys[i]];
        FilterStep(statuses.Values(), i, p);
        if status.messageId == messageId {
          r := r + [status];
        }
        i := i + 1;
      }
      assert statuses.Values()[..i] == statuses.Values();
      forall e ensures e in r <==> e in statuses.Values() && e.messageId == messageId {
        FilterMembership(statuses.Values(), p, e);
      }
    }

    /**
     * `Message.delete`: clears the content and sets the deletion time of a stored
     * message, which stays retrievable; an unknown id changes nothing.
     */
    method Delete(id: string, now: Time) returns (r: Option<Message>)
      requires Valid()
      modifies this
      ensures Valid()
      ensures id in old(messages.entries) ==>
        r == Some(Tombstone(old(messages.entries[id]), now))
        && messages == old(messages).Set(id, r.value)
      ensures id !in old(messages.entries) ==> r == None && messages == old(messages)
      ensures statuses == old(statuses)
      ensures r.Some? ==> FindById(id) == r
    {
      if id in messages.entries {
        var message := Tombstone(messages.entries[id], now);
        messages := messages.Set(id, message);
        r := Some(message);
      } else {
        r := None;
      }
    }
  }

  /** Writing the status of one pair leaves the status of every other pair as it was. */
  lemma UpdateStatusKeepsOtherPairs(statuses: OrderedMap<string, StatusEntry>, e: StatusEntry,
                                    m: string, u: string, m2: string, u2: string)
    requires statuses.Valid() && ColonFree(m) && ColonFree(m2) && (m, u) != (m2, u2)
    ensures statuses.Set(StatusKey(m, u), e).Get(StatusKey(m2, u2)) == statuses.Get(StatusKey(m2, u2))
  {
    if StatusKey(m, u) == StatusKey(m2, u2) {
      StatusKeyInjective(m, u, m2, u2);
    }
  }

  /**
   * After `delete(id)` no page of any chat contains a message with that id,
   * given that every message is stored under its own id.
   */
  lemma DeleteHidesMessage(messages: OrderedMap<string, Message>, id: string, now: Time,
                           chatId: string, limit: int, before: Option<Time>)
    requires messages.Valid() && id in messages.entries
    requires forall k :: k in messages.entries ==> messages.entries[k].id == k
    ensures forall x :: x in Page(messages.Set(id, Tombstone(messages.entries[id], now)).Values(), chatId, limit, before)
                ==> x.id != id
  {
    var after := messages.Set(id, Tombstone(messages.entries[id], now));
    PageQualifies(after.Values(), chatId, limit, before);
    forall x | x in Page(after.Values(), chatId, limit, before) ensures x.id != id {
      var i :| 0 <= i < |after.keys| && after.Values()[i] == x;
      var k := after.keys[i];
      if k != id {
        assert x == messages.entries[k];
      }
    }
  }
}
