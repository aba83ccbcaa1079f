/**
 * The message handlers of backend/src/controllers/messageController.js:
 * sending a message (content and chat checks, then `Message.create`), the
 * history of a chat (the store's newest-first page turned oldest-first, with
 * `hasMore`) and marking a message read. The message id and the clock are
 * parameters.
 */
module MessageController {
  import opened Wrappers
  import opened Seqs
  import opened Sorting
  import opened Text
  import opened JsValues
  import opened MockDatabase
  import opened ChatModel
  import opened MessageModel

  /** The sender as message replies show them. */
  datatype Sender = Sender(userId: string, firstName: Option<string>, lastName: Option<string>)

  /** One message as the handlers return it. */
  datatype MessageView = MessageView(messageId: string, chatId: string, sender: Sender, content: string,
                                     messageType: string, timestamp: Time, status: string)

  function ViewOf(m: Message, u: User): (v: MessageView)
    ensures v.messageId == m.id && v.chatId == m.chatId && v.timestamp == m.createdAt
    ensures v.sender.userId == u.id && v.content == m.content && v.status == m.status
  {
    MessageView(m.id, m.chatId, Sender(u.id, u.firstName, u.lastName), m.content, m.messageType,
                m.createdAt, m.status)
  }

  // ---- sendMessage ----

  /** `SendFailed` is the 500 of the catch block (the sender's record is missing). */
  datatype SendReply = Sent(message: MessageView) | SendRefused(status: int, error: string) | SendFailed

  /** `content && content.trim()`. */
  predicate ContentOk(content: JsString) {
    Truthy(content) && Trim(content.value) != ""
  }

  /** Content is accepted exactly when it is a string with a character that is not whitespace. */
  lemma ContentOkMeans(content: JsString)
    ensures ContentOk(content) <==> content.Str? && !AllWhitespace(content.value)
  {
    if content.Str? {
      TrimEmpty(content.value);
    }
  }

  /**
   * `sendMessage`: blank or missing content is a 400 and an unknown chat a
   * 404, both without storing anything; otherwise the message is stored with
   * type `'text'` unless another is given, and the reply shows it with its
   * sender (a 500 when the sender's record is missing, the message staying stored).
   */
  method SendMessage(chats: ChatStore, msgs: MessageStore, db: Db, senderId: string, chatId: string,
                     content: JsString, messageType: Option<string>, replyToId: Option<string>,
                     messageId: string, now: Time) returns (r: SendReply)
    requires chats.Valid() && msgs.Valid() && db.Valid()
    modifies msgs
    ensures msgs.Valid()
    ensures !ContentOk(content) ==> r == SendRefused(400, "INVALID_CONTENT") && unchanged(msgs)
    ensures ContentOk(content) && chatId !in chats.chats.entries ==>
      r == SendRefused(404, "CHAT_NOT_FOUND") && unchanged(msgs)
    ensures ContentOk(content) && chatId in chats.chats.entries ==>
      var m := Message(messageId, chatId, senderId, content.value, messageType.GetOr("text"), replyToId,
                       "sent", now, now, None);
      && msgs.messages == old(msgs.messages).Set(messageId, m)
      && msgs.statuses == old(msgs.statuses)
      && msgs.FindById(messageId) == Some(m)
      && r == (if senderId in db.users.entries then Sent(ViewOf(m, db.users.entries[senderId])) else SendFailed)
  {
    if !ContentOk(content) {
      return SendRefused(400, "INVALID_CONTENT");
    }
    var chat := chats.FindById(chatId);
    if chat.None? {
      return SendRefused(404, "CHAT_NOT_FOUND");
    }
    var m := msgs.Create(messageId, chatId, senderId, content.value, messageType, replyToId, now);
    var sender := db.FindUserById(senderId);
    if sender.None? {
      return SendFailed;
    }
    r := Sent(ViewOf(m, sender.value));
  }

  // ---- getChatMessages ----

  /** The `limit` query parameter: absent, a number `parseInt` read, or text it could not read (NaN). */
  datatype LimitParam = DefaultLimit | Parsed(n: int) | NotANumber

  const DEFAULT_LIMIT := 50

  /** The end `slice(0, limit)` uses: 50 by default, and 0 for NaN. */
  function SliceEnd(limit: LimitParam): int {
    match limit
    case DefaultLimit => DEFAULT_LIMIT
    case Parsed(n) => n
    case NotANumber => 0
  }

  /** `messages.length === parseInt(limit)`; nothing equals NaN. */
  predicate HasMore(length: nat, limit: LimitParam) {
    !limit.NotANumber? && length == SliceEnd(limit)
  }

  /** The views of a page in its order, or `None` when one sender is missing (the handler throws). */
  function Views(page: seq<Message>, users: map<string, User>): Option<seq<MessageView>>
  {
    if page == [] then Some([])
    else if page[0].senderId !in users then None
    else
      match Views(page[1..], users)
      case None => None
      case Some(rest) => Some([ViewOf(page[0], users[page[0].senderId])] + rest)
  }

  lemma {:induction false} ViewsAligned(page: seq<Message>, users: map<string, User>, vs: seq<MessageView>)
    requires Views(page, users) == Some(vs)
    ensures |vs| == |page|
    ensures forall i :: 0 <= i < |page| ==>
      page[i].senderId in users && vs[i] == ViewOf(page[i], users[page[i].senderId])
  {
    if page != [] {
      var rest := Views(page[1..], users).value;
      ViewsAligned(page[1..], users, rest);
      forall i | 0 <= i < |page|
        ensures page[i].senderId in users && vs[i] == ViewOf(page[i], users[page[i].senderId])
      {
        if i > 0 {
          assert vs[i] == rest[i - 1] && page[i] == page[1..][i - 1];
        }
      }
    }
  }

  /** A page has views exactly when every one of its senders is a stored user. */
  lemma {:induction false} ViewsDefined(page: seq<Message>, users: map<string, User>)
    ensures Views(page, users).Some? <==> forall m :: m in page ==> m.senderId in users
  {
    if page != [] {
      ViewsDefined(page[1..], users);
      assert forall m :: m in page <==> m == page[0] || m in page[1..];
    }
  }

  /** `HistoryFailed` is the 500 of the catch block. */
  datatype HistoryReply = History(messages: seq<MessageView>, hasMore: bool) | HistoryFailed

  /** The reply of `getChatMessages` over the stored messages in map order. */
  function HistoryOf(stored: seq<Message>, chatId: string, limit: LimitParam, before: Option<Time>,
                     users: map<string, User>): HistoryReply
  {
    var page := Page(stored, chatId, SliceEnd(limit), before);
    match Views(page, users)
    case None => HistoryFailed
    case Some(vs) => History(Reverse(vs), HasMore(|page|, limit))
  }

  /** Reversing the views of a newest-first page gives them oldest first, each in its mirrored place. */
  lemma ReversedViews(page: seq<Message>, users: map<string, User>, vs: seq<MessageView>)
    requires Views(page, users) == Some(vs) && SortedDesc(page, CreatedAt)
    ensures |Reverse(vs)| == |page|
    ensures forall i :: 0 <= i < |page| ==>
      Reverse(vs)[i].messageId == page[|page| - 1 - i].id && Reverse(vs)[i].chatId == page[|page| - 1 - i].chatId
    ensures forall i, j :: 0 <= i < j < |page| ==> Reverse(vs)[i].timestamp <= Reverse(vs)[j].timestamp
  {
    ViewsAligned(page, users, vs);
    var h := Reverse(vs);
    forall i, j | 0 <= i < j < |h| ensures h[i].timestamp <= h[j].timestamp {
      assert h[i] == vs[|vs| - 1 - i] && h[j] == vs[|vs| - 1 - j];
      assert CreatedAt(page[|vs| - 1 - j]) >= CreatedAt(page[|vs| - 1 - i]);
    }
  }

  /**
   * The history is the store's page reversed, so oldest first; it holds at
   * most `limit` messages (50 by default, none when the limit is not a
   * number), all of the chat, not deleted and older than the cursor; and
   * `hasMore` holds exactly when the page came back full.
   */
  lemma HistoryOldestFirst(stored: seq<Message>, chatId: string, limit: LimitParam, before: Option<Time>,
                           users: map<string, User>, h: seq<MessageView>, more: bool)
    requires HistoryOf(stored, chatId, limit, before, users) == History(h, more)
    ensures var page := Page(stored, chatId, SliceEnd(limit), before);
      && |h| == |page|
      && (forall i :: 0 <= i < |page| ==> h[i].messageId == page[|page| - 1 - i].id)
      && (forall i, j :: 0 <= i < j < |h| ==> h[i].timestamp <= h[j].timestamp)
      && (forall i :: 0 <= i < |h| ==> h[i].chatId == chatId)
    ensures 0 <= SliceEnd(limit) ==> |h| <= SliceEnd(limit)
    ensures limit.DefaultLimit? ==> |h| <= 50
    ensures limit.NotANumber? ==> h == [] && !more
    ensures more <==> !limit.NotANumber? && |h| == SliceEnd(limit)
  {
    var page := Page(stored, chatId, SliceEnd(limit), before);
    var vs := Views(page, users).value;
    PageOrderedAndBounded(stored, chatId, SliceEnd(limit), before);
    PageQualifies(stored, chatId, SliceEnd(limit), before);
    ReversedViews(page, users, vs);
    forall i | 0 <= i < |h| ensures h[i].chatId == chatId {
      assert page[|h| - 1 - i] in page;
    }
  }

  /** `getChatMessages`: look up each sender of the page, then reverse. */
  method GetChatMessages(msgs: MessageStore, db: Db, chatId: string, limit: LimitParam, before: Option<Time>)
    returns (r: HistoryReply)
    requires msgs.Valid() && db.Valid()
    ensures r == HistoryOf(msgs.messages.Values(), chatId, limit, before, db.users.entries)
  {
    var page := msgs.GetChatMessages(chatId, SliceEnd(limit), before);
    var acc: seq<MessageView> := [];
    var i := |page|;
    while i > 0
      invariant 0 <= i <= |page|
      invariant Views(page[i..], db.users.entries) == Some(acc)
    {
      i := i - 1;
      var sender := db.FindUserById(page[i].senderId);
      if sender.None? {
        ViewsDefined(page, db.users.entries);
        return HistoryFailed;
      }
      assert page[i..][1..] == page[i + 1..];
      acc := [ViewOf(page[i], sender.value)] + acc;
    }
    assert page[0..] == page;
    r := History(Reverse(acc), HasMore(|page|, limit));
  }

  // ---- markAsRead ----

  datatype ReadReply = MarkedRead(messageId: string, status: string, readAt: Time)

  /** `markAsRead`: the caller's status for the message becomes `'read'`, whatever it was. */
  method MarkAsRead(msgs: MessageStore, messageId: string, userId: string, now: Time) returns (r: ReadReply)
    requires msgs.Valid()
    modifies msgs
    ensures msgs.Valid()
    ensures msgs.statuses == old(msgs.statuses).Set(StatusKey(messageId, userId),
                                                    StatusEntry(messageId, userId, "read", now))
    ensures msgs.messages == old(msgs.messages)
    ensures msgs.StatusOf(messageId, userId) == Some(StatusEntry(messageId, userId, "read", now))
    ensures r == MarkedRead(messageId, "read", now)
  {
    msgs.UpdateStatus(messageId, userId, "read", now);
    r := MarkedRead(messageId, "read", now);
  }
}
