# telegram-clone core, modelled in Dafny

This project models the logic of a small Telegram-style messenger: a Node.js
backend and a React frontend. The model covers the behaviour below.

- **Backend stores.** The in-memory message store (paged history, per-user
  read statuses, soft delete) and the membership store (chats, memberships
  keyed by `chatId:userId`, the private chat of two users). The mock
  key-value database holds users, sessions, chats and messages (create,
  find, `Object.assign` merge, expiry-checked session lookup, delete).
  JavaScript `Map`s are modelled by an insertion-ordered map.
- **Backend decisions.** Registration and its uniqueness checks; the login
  lockout state machine; the profile bounds; find-or-create of a private
  chat; group creation; the user searches; message send validation; history
  reversal with `hasMore`; the Bearer/session gate of the middleware; the
  phone, username and password predicates.
- **Socket server.** The handshake check, the twin registries
  `userSockets`/`socketUsers`, room membership, and the presence fan-out to
  contacts. Every emitted event is recorded as its set of recipient
  sockets.
- **Frontend.** The socket client's connection and listener state. The
  service caches (chats, messages per chat, users by phone) with their
  offline fallbacks. The page state updaters of the chat, search and
  settings pages and the group dialog.

The model takes the source's form. Objects and modules that mutate maps are
classes, with `modifies` clauses and methods proved against specification
functions. Pure reducers and checks are functions, with lemmas stating what
the source promises of them.

Some things are parameters of the operations rather than parts of the model:

- the clock (`now`, an integer);
- generated ids;
- `jwt.verify`/`jwt.sign`, the SHA-256 token hash and bcrypt compare;
- the outcome of each HTTP request (a success with data, or an error with
  a code and a status).

Two facts about the code shape the model:

- The server keeps one socket per user: a second connection overwrites the
  first entry of `userSockets`. Any disconnect deletes the user's entry and
  announces "offline", even when a newer socket of the same user is still
  connected (`SocketHandler.StaleDisconnect`).
- Ids come from `Date.now()` and `Math.random()`, so they are parameters
  here. The operations that create chats require an id that is not yet in
  use.

## Model

| member | source | states |
|---|---|---|
| MessageModel.StatusKey | backend/src/models/Message.js:41 | the status key is the message id, a colon and the user id |
| MessageModel.StatusKeyInjective | backend/src/models/Message.js:41-42 | for colon-free message ids, equal keys mean the same (message, user) pair |
| MessageModel.Tombstone | backend/src/models/Message.js:63-64 | the deleted record keeps its id, chat and creation time, with empty content and the deletion time set |
| MessageModel.PageQualifies | backend/src/models/Message.js:27-34 | every message of a page is stored, belongs to the chat, is not deleted and is strictly older than `before` |
| MessageModel.PageOrderedAndBounded | backend/src/models/Message.js:35-37 | a page is sorted newest first and is at most `limit` long |
| MessageModel.PageIsNewest | backend/src/models/Message.js:27-37 | a qualifying message left out is no newer than any returned one; a page shorter than the limit holds every qualifying message |
| MessageModel.PageTiesInInsertionOrder | backend/src/models/Message.js:28-36 | messages with equal `createdAt` keep the map's insertion order (the sort is stable) |
| MessageModel.PageOmitsDeleted | backend/src/models/Message.js:29 | a soft-deleted message never appears in a page |
| MessageModel.MessageStore.constructor | backend/src/models/Message.js:1-2 | both maps start empty |
| MessageModel.MessageStore.Create | backend/src/models/Message.js:5-20 | the new record has status `'sent'`, no deletion time, type `'text'` by default, and `findById` returns it |
| MessageModel.MessageStore.FindById | backend/src/models/Message.js:22-24 | returns a record exactly when the id is stored, and that record carries the id |
| MessageModel.MessageStore.GetChatMessages | backend/src/models/Message.js:26-38 | the loop's result equals the filter, stable newest-first sort and `slice(0, limit)` of the stored messages |
| MessageModel.MessageStore.UpdateStatus | backend/src/models/Message.js:40-48 | sets the pair's key to the new entry, replacing an earlier one, and leaves the messages alone |
| MessageModel.MessageStore.StatusOf | backend/src/models/Message.js:41 | a found status has the asked pair's key `messageId:userId`; by `MessageModel.StatusKeyInjective` that is the asked pair when the message id holds no colon |
| MessageModel.MessageStore.GetMessageStatus | backend/src/models/Message.js:50-58 | returns exactly the status entries of the message, in map order |
| MessageModel.MessageStore.Delete | backend/src/models/Message.js:60-68 | a stored message is replaced by its tombstone and stays retrievable; an unknown id changes nothing and returns nothing |
| MessageModel.UpdateStatusKeepsOtherPairs | backend/src/models/Message.js:40-48 | writing one pair's status leaves every other pair's status unchanged |
| MessageModel.DeleteHidesMessage | backend/src/models/Message.js:60-68 | after `delete(id)` no page of any chat contains that message |
| ChatModel.MemberKey | backend/src/models/Chat.js:26 | the membership key is the chat id, a colon and the user id |
| ChatModel.StoredName | backend/src/models/Chat.js:12 | an absent or empty name is stored as null, any other name as given |
| ChatModel.MemberKeySameChat | backend/src/models/Chat.js:26 | two keys of the same chat are equal exactly when the users are |
| ChatModel.UserIds | backend/src/models/Chat.js:65 | the member ids: one per membership, in order |
| ChatModel.MembersOfExact | backend/src/models/Chat.js:38-46 | `getMembers(c)` holds a membership exactly when it is stored and belongs to `c` |
| ChatModel.ChatsOfExact | backend/src/models/Chat.js:48-59 | `getUserChats(u)` holds a chat exactly when it is stored and `u` has a membership of it |
| ChatModel.PrivateChatOfSound | backend/src/models/Chat.js:61-72 | a found chat is private with both users among its members and is the first such; null means no chat is |
| ChatModel.ChatStore.constructor | backend/src/models/Chat.js:4-5 | both maps start empty |
| ChatModel.ChatStore.Create | backend/src/models/Chat.js:8-19 | stores the chat under its id with the stored name rule and both times set to now; `findById` then returns it |
| ChatModel.ChatStore.FindById | backend/src/models/Chat.js:21-23 | returns a chat exactly when the id is stored, and that chat carries the id |
| ChatModel.ChatStore.Touch | backend/src/socket/socketHandler.js:87-91 | only the stored chat's `updatedAt` changes; an unknown id changes nothing |
| ChatModel.ChatStore.AddMember | backend/src/models/Chat.js:25-36 | role defaults to `'member'`, no message read yet, and the record replaces any earlier one for the same pair |
| ChatModel.ChatStore.GetMembers | backend/src/models/Chat.js:38-46 | the loop's result is exactly the stored memberships of the chat, in map order |
| ChatModel.ChatStore.GetUserChats | backend/src/models/Chat.js:48-59 | the loop's result is the existing chats of the user's memberships, in map order |
| ChatModel.ChatStore.FindPrivateChat | backend/src/models/Chat.js:61-72 | the loop returns the first private chat that holds both users, or null |
| ChatModel.AtMostOneMembershipPerPair | backend/src/models/Chat.js:26-34 | the store never holds two memberships of the same (chat, user) pair |
| ChatModel.UserIdsMembership | backend/src/models/Chat.js:65-66 | an id is among the member ids exactly when some membership has it |
| ChatModel.PairDeterminesMembership | backend/src/models/Chat.js:26-34 | two stored memberships of the same pair are the same record |
| ChatModel.MemberIdsDistinct | backend/src/models/Chat.js:26-46 | a chat's member list names each user at most once |
| ChatModel.MemberIdsExactly | backend/src/models/Chat.js:38-46 | a chat's member ids are exactly the users holding a membership of it |
| ChatModel.MemberCount | backend/src/controllers/chatController.js:109-115 | the member count a reply reports is the number of distinct members |
| ChatModel.SetGivesNoNewMember | backend/src/models/Chat.js:25-36 | adding a membership of another chat gives a chat no new member |
| ChatModel.NewPrivateChatFound | backend/src/controllers/chatController.js:25-35 | once a new private chat with both users is created, `findPrivateChat` finds exactly it |
| ChatModel.PrivateChatOfSnoc | backend/src/models/Chat.js:61-72 | a private chat of the two users placed after chats that are not is the one found |
| ChatModel.OldChatsStayUnshared | backend/src/models/Chat.js:61-72 | creating the new chat and its two memberships does not make an older chat private with the two users |
| ChatModel.NewChatShared | backend/src/models/Chat.js:63-66 | the new chat with both memberships is private with the two users |
| ChatModel.AddKeepsExactly | backend/src/models/Chat.js:25-36 | `addMember(c, u)` extends the member set of `c` by `u` and leaves the other memberships of `c` as they were |
| SocketHandler.AdmitSpec | backend/src/socket/socketHandler.js:12-26 | a socket is admitted exactly when it has a token that verifies, and then as the token's user; otherwise the error is "Authentication error" |
| SocketHandler.Room | backend/src/socket/socketHandler.js:48 | the room name is `chat:` followed by the chat id |
| SocketHandler.RoomInjective | backend/src/socket/socketHandler.js:48 | two chats share a room exactly when they are the same chat |
| SocketHandler.RoomsOfExact | backend/src/socket/socketHandler.js:46-50 | after joining, a socket is in a chat's room exactly when that chat is one of the user's chats |
| SocketHandler.LastSeenFor | backend/src/socket/socketHandler.js:205 | a last-seen time is present exactly when the status is `'offline'` |
| SocketHandler.ContactsExact | backend/src/socket/socketHandler.js:188-196 | a contact is a user other than the given one who holds a membership of one of the chats |
| SocketHandler.ContactsAreChatmates | backend/src/socket/socketHandler.js:185-196 | over the user's chats, the contacts are exactly the other users who share a stored chat with them |
| SocketHandler.OthersOf | backend/src/socket/socketHandler.js:190-195 | the inner loop collects exactly the chat's other members |
| SocketHandler.ContactIds | backend/src/socket/socketHandler.js:185-196 | the nested loops compute exactly the contact set of the user's chats |
| SocketHandler.Recipients | backend/src/socket/socketHandler.js:199-201 | the reached sockets are exactly the `userSockets` entries of the contacts |
| SocketHandler.PresenceMerge | backend/src/socket/socketHandler.js:170-173 | a presence update changes status, last-seen (offline only) and `updatedAt`, and no other field |
| SocketHandler.SocketServer.constructor | backend/src/socket/socketHandler.js:7-8 | both registries and all rooms start empty, and nothing has been emitted |
| SocketHandler.SocketServer.BroadcastUserStatus | backend/src/socket/socketHandler.js:182-212 | one `user_status_changed` reaches the registered socket of every contact, with a last-seen time exactly when offline |
| SocketHandler.SocketServer.JoinRooms | backend/src/socket/socketHandler.js:46-50 | the socket joins the room of each of the given chats and no other room |
| SocketHandler.SocketServer.Connect | backend/src/socket/socketHandler.js:28-50 | both registries point at the new socket, a stored user goes online and the contacts are told, and the socket joins every chat room of the user |
| SocketHandler.SocketServer.Register | backend/src/socket/socketHandler.js:33-34 | `userSockets[user]` and `socketUsers[socket]` are set, overwriting a user's earlier socket |
| SocketHandler.SocketServer.GoOnline | backend/src/socket/socketHandler.js:37-43 | a stored user is set online and the contacts are told; an unknown user changes nothing |
| SocketHandler.SocketServer.SendMessage | backend/src/socket/socketHandler.js:53-97 | the message is stored with no content check; a `'sent'` payload reaches every socket of the room, the sender's included; the chat's `updatedAt` is renewed; a missing sender gives `message_error` to the sender only |
| SocketHandler.SocketServer.TypingStart | backend/src/socket/socketHandler.js:100-115 | the room minus the typist's socket learns the typist's first name, for a stored user only |
| SocketHandler.SocketServer.TypingStop | backend/src/socket/socketHandler.js:117-127 | the room minus the typist's socket learns that typing stopped |
| SocketHandler.SocketServer.MarkRead | backend/src/socket/socketHandler.js:130-145 | the reader's status for the message becomes `'read'` and the room minus the reader's socket is told |
| SocketHandler.SocketServer.JoinChat | backend/src/socket/socketHandler.js:148-152 | the socket joins exactly the chat's room |
| SocketHandler.SocketServer.LeaveChat | backend/src/socket/socketHandler.js:155-159 | the socket leaves exactly the chat's room |
| SocketHandler.SocketServer.Disconnect | backend/src/socket/socketHandler.js:162-177 | the user's `userSockets` entry is deleted whatever socket it points at; the socket's entry and rooms go; a stored user goes offline with a last-seen time and the contacts are told |
| SocketHandler.StatusReachesOnlyContacts | backend/src/socket/socketHandler.js:192-202 | status events reach only sockets registered for a contact, never the user's own socket |
| SocketHandler.StaleDisconnect | backend/src/socket/socketHandler.js:166 | a user connected from two sockets loses its `userSockets` entry when the first one disconnects, though the second stays in `socketUsers` |
| MockDatabase.NewUser | backend/src/config/database.js:11-16 | the created user carries the given fields, the id and both timestamps set to now |
| MockDatabase.MergeField | backend/src/config/database.js:40 | a field named in the update takes its value (null included); an unnamed one keeps its value |
| MockDatabase.Merge | backend/src/config/database.js:40 | every field named in the update is overwritten, the rest are kept, and `updatedAt` becomes now |
| MockDatabase.FindOneSpec | backend/src/config/database.js:21-27 | `findOne` returns the first user whose phone, or failing that whose id, equals a truthy query field, and null exactly when there is none |
| MockDatabase.FindOneIgnoresOtherKeys | backend/src/config/database.js:23-24 | a query without a truthy phone or `_id` finds nobody, whatever other fields it names |
| MockDatabase.NewDoc | backend/src/config/database.js:86-91 | the record has `_id` first and then the spread data, which may override it, then the timestamps |
| MockDatabase.Db.constructor | backend/src/config/database.js:2-5 | all four maps start empty |
| MockDatabase.Db.CreateUser | backend/src/config/database.js:10-19 | the new record is stored under its id and returned, and `findById` then finds it |
| MockDatabase.Db.FindOneUser | backend/src/config/database.js:21-27 | the loop returns what `findOne` specifies: the first matching user in map order, or null |
| MockDatabase.Db.FindUserById | backend/src/config/database.js:29-31 | returns the record stored under the id, or null |
| MockDatabase.Db.AllUsers | backend/src/config/database.js:33-35 | every stored user once, in insertion order |
| MockDatabase.Db.UpdateUser | backend/src/config/database.js:37-44 | an existing record is merged and stamped; an unknown id changes nothing and returns nothing |
| MockDatabase.Db.CreateSession | backend/src/config/database.js:48-56 | the session is stored under its token hash, replacing an earlier one with that hash |
| MockDatabase.Db.FindSession | backend/src/config/database.js:58-66 | returns a session only for a truthy hash that is stored and whose `expiresAt` is later than now |
| MockDatabase.Db.DeleteSession | backend/src/config/database.js:68-72 | afterwards no lookup finds a session under that hash; other sessions stay |
| MockDatabase.Db.UpdateSession | backend/src/config/database.js:74-81 | an existing session gets the new `lastActivity` and no `updatedAt`; a missing key is a no-op |
| MockDatabase.Db.CreateChat | backend/src/config/database.js:85-94 | the record with its id and both timestamps is stored under its `_id` |
| MockDatabase.Db.FindChatById | backend/src/config/database.js:96-98 | returns the record stored under the id, or null |
| MockDatabase.Db.UpdateChat | backend/src/config/database.js:104-111 | an existing record is merged and `updatedAt` stamped; a missing key is a no-op |
| MockDatabase.Db.CreateMessage | backend/src/config/database.js:115-123 | the record with its id and `createdAt` is stored under its `_id` |
| MockDatabase.Db.FindMessageById | backend/src/config/database.js:125-127 | returns the record stored under the id, or null |
| MockDatabase.Db.UpdateMessage | backend/src/config/database.js:133-140 | an existing record is merged without a timestamp; a missing key is a no-op |
| UserModel.Defaults | backend/src/models/User.js:5-18 | e-mail, last name and username are null when falsy; bio, photo, last-seen and lock are null, status `'offline'`, no failed logins |
| UserModel.Create | backend/src/models/User.js:4-19 | the stored user is offline, has no failed logins, no lock and no bio, photo or last-seen time, and is found by its id |
| UserModel.Save | backend/src/models/User.js:41-43 | the whole record is written back under its own id with a new `updatedAt`; an unknown id changes nothing |
| UserModel.FindByIdAndUpdate | backend/src/models/User.js:33-35 | only the fields the partial update names change, plus `updatedAt` |
| UserModel.SearchExact | backend/src/models/User.js:45-57 | `search` returns exactly the stored users that match, unchanged |
| UserModel.SearchSubMultiset | backend/src/models/User.js:45-57 | the result holds no user more often than the store does |
| UserModel.SearchPhone | backend/src/models/User.js:50 | the phone test is case-sensitive containment of the query as written |
| UserModel.SearchNameCaseInsensitive | backend/src/models/User.js:47-53 | queries that differ only in ASCII case agree on the name and username tests |
| UserModel.SearchIgnoresEmail | backend/src/models/User.js:49-56 | changing a user's e-mail never changes whether it matches |
| JsValues.OrNull | backend/src/models/User.js:7-11 | `v \|\| null`: absent, null and empty become null, any other string stays |
| JsValues.Stored | backend/src/config/database.js:40 | an assigned string is stored as given, and null as null |
| Password.ValidatePasswordStrength | backend/src/utils/password.js:22-31 | valid exactly when the password has at least 8 characters, with a message exactly when invalid |
| Password.StrengthOnlyByLength | backend/src/utils/password.js:22-31 | passwords of equal length get the same verdict |
| Validation.DigitsExactlyMeans | backend/src/utils/validation.js:7 | `[0-9]{n}` matches exactly the strings of n ASCII digits |
| Validation.ValidatePhoneMeans | backend/src/utils/validation.js:6-9 | a phone is valid exactly when it is `+998` followed by nine ASCII digits and nothing else |
| Validation.UsernamePatternMeans | backend/src/utils/validation.js:51 | the pattern holds exactly for an optional `@` followed by 3 to 32 characters from `[A-Za-z0-9_]` |
| Validation.RegisterAccepted | backend/src/utils/validation.js:14-56 | an accepted body has a valid phone, a password of 8 or more, a first name of 1..64, a last name of at most 64 or none, and a username that is absent, empty or matches |
| Validation.RegisterFieldPresence | backend/src/utils/validation.js:15-55 | absent, null or empty optional fields never cause a rejection; a missing phone, password or first name always does |
| Validation.ValidateLogin | backend/src/utils/validation.js:61-72 | accepted exactly when identifier and password are both non-empty strings |
| AuthMiddleware.BearerToken | backend/src/middleware/auth.js:16 | the token is the header with its first seven characters removed |
| AuthMiddleware.NoBearerRejected | backend/src/middleware/auth.js:9-14 | a missing header or one not starting with `Bearer ` yields 401 `TOKEN_INVALID`, before any lookup |
| AuthMiddleware.NextMeansLiveSession | backend/src/middleware/auth.js:16-48 | `next` is reached only for a token that verifies and whose hash names a session expiring after now, and the request then carries that session's user |
| AuthMiddleware.ExpiredSessionRejected | backend/src/middleware/auth.js:26-34 | a session whose expiry is not after now yields 401 whatever the token |
| AuthMiddleware.Authenticate | backend/src/middleware/auth.js:5-56 | the method reaches the decision above; the session's `lastActivity` is stamped exactly on the paths past the session check, and nothing else in the database changes |
| AuthController.RegisterErrorMeans | backend/src/controllers/authController.js:13-52 | a weak password gets 400 before any lookup; then 409 for a taken phone, a taken e-mail (if given) and a taken username (if given), in that order; registration goes ahead exactly when none holds |
| AuthController.RegisteredUser | backend/src/controllers/authController.js:56-84 | the stored record has the defaults of `User.create`, status `'online'` and the password hash |
| AuthController.Register | backend/src/controllers/authController.js:9-109 | a failed check stores nothing; otherwise exactly one user and one session under the token's hash are added, and the user is online |
| AuthController.FindLoginUser | backend/src/controllers/authController.js:116-126 | the loop returns the first user whose phone, username or e-mail equals the identifier |
| AuthController.LoginCandidateSpec | backend/src/controllers/authController.js:119-133 | the first matching user is returned; no match means no user carries the identifier |
| AuthController.LockedIgnoresPassword | backend/src/controllers/authController.js:135-140 | an account locked until after now gets 403 whatever the password, and the record is left alone |
| AuthController.WrongPasswordCounts | backend/src/controllers/authController.js:143-161 | a wrong password adds one failed attempt; reaching 5 locks the account until now plus 900000 ms with 403, otherwise 401 reports `5 - failedLoginAttempts` attempts left |
| AuthController.SuccessResets | backend/src/controllers/authController.js:164-185 | a correct password on an unlocked account sets the counter to 0, clears the lock and sets the user online |
| AuthController.FiveStrikes | backend/src/controllers/authController.js:143-161 | from a clean record the first four wrong passwords only count, and the fifth locks the account until now plus the lock time |
| AuthController.RelockAfterExpiry | backend/src/controllers/authController.js:135-147 | the counter is not reset when a lock expires, so one more wrong password locks the account again |
| AuthController.Login | backend/src/controllers/authController.js:111-211 | no matching user is a 401 that changes nothing; otherwise one attempt: a locked account changes nothing, a wrong password saves the counter (and lock), success adds a session and saves the reset, online record |
| AuthController.FieldError | backend/src/controllers/authController.js:276-295 | a truthy first name outside 1..64, a truthy last name over 64 or a truthy bio over 70 is refused with 400, in that order |
| AuthController.AsWrittenAcceptsTakenUsername | backend/src/controllers/authController.js:298-306 | as written, a username held by another user is accepted, because the lookup ignores the `username` key |
| AuthController.ProfileErrorMeans | backend/src/controllers/authController.js:276-306 | with the intended lookup, an update passes exactly when the bounds hold and no other user holds the requested username, and is otherwise refused with 409 |
| AuthController.ApplyProfile | backend/src/controllers/authController.js:308-324 | exactly the provided fields are merged into the caller's record; a missing caller gets 404 and nothing changes |
| AuthController.UpdateProfile | backend/src/controllers/authController.js:270-347 | the as-written checks decide; past them the provided fields are merged and the user read back, nothing else changes |
| AuthController.UpdateProfileCorrected | backend/src/controllers/authController.js:270-347 | the same update with the intended username check: a username another user holds is refused with 409 and nothing changes |
| AuthController.SearchUsersSpec | backend/src/controllers/authController.js:402-437 | a missing query or one shorter than 3 gets 400; otherwise the results are exactly the summaries of the matching users other than the caller, in store order |
| ChatController.CreateOrGetPrivateChat | backend/src/controllers/chatController.js:5-54 | a chat with oneself is 400 and an unknown peer 404, neither changing anything; an existing private chat of the two is returned unchanged; otherwise one private chat is created with both as members; either way a repeated request finds the returned chat |
| ChatController.GroupErrorMeans | backend/src/controllers/chatController.js:61-91 | a group is created exactly when the name is non-blank, the members are a non-empty array of at most 199 ids and every id names a user; a blank name is reported first (400), an unknown id last (404) |
| ChatController.FirstUnknownMember | backend/src/controllers/chatController.js:83-91 | the loop returns the first id that names no stored user |
| ChatController.CreateGroup | backend/src/controllers/chatController.js:56-125 | a failed check changes nothing; otherwise the group gets the trimmed name, the creator is admin, every other listed id is a member, no other membership changes, and the reply counts the distinct members |
| ChatController.AddGroupMembers | backend/src/controllers/chatController.js:103-107 | afterwards the group's members are exactly the creator and the listed ids, the creator still admin and the others plain members; a creator id in the list is not re-added |
| ChatController.JoinStep | backend/src/controllers/chatController.js:104-106 | one turn of the loop: the creator's id is skipped, any other id becomes a member, and no other key changes |
| ChatController.AddOne | backend/src/controllers/chatController.js:105 | an id other than the creator's is added as `'member'` and the member set grows by it |
| ChatController.Entry | backend/src/controllers/chatController.js:133-170 | a chat's entry carries its id and its `updatedAt` |
| ChatController.SummariesAligned | backend/src/controllers/chatController.js:132-171 | each chat gets one entry, in the same position, with its id and `updatedAt` |
| ChatController.SummariesNoneExtends | backend/src/controllers/chatController.js:132-171 | once one chat's entry throws, the whole list does (`Promise.all` rejects) |
| ChatController.ChatListOrdered | backend/src/controllers/chatController.js:173-176 | the list has one entry per chat, sorted by `updatedAt` newest first, with equal times kept in store order |
| ChatController.GetUserChats | backend/src/controllers/chatController.js:127-185 | the loop yields the list of entries of the caller's chats, sorted, or a server error when one entry throws |
| ChatController.SearchContactsSpec | backend/src/controllers/chatController.js:187-235 | a query shorter than 2 is refused; otherwise the result is exactly the stored users other than the caller that match, an e-mail match being enough |
| MessageController.ViewOf | backend/src/controllers/messageController.js:67-79 | a view shows the message's id, chat, content, status and creation time as timestamp, and the sender's id |
| MessageController.ContentOkMeans | backend/src/controllers/messageController.js:10 | content is accepted exactly when it is a string with a character that is not whitespace |
| MessageController.SendMessage | backend/src/controllers/messageController.js:5-55 | blank or missing content is 400 and an unknown chat 404, neither storing anything; otherwise the message is stored with type `'text'` unless given, and the reply shows it with its sender (500 when the sender is missing, the message still stored) |
| MessageController.ViewsAligned | backend/src/controllers/messageController.js:64-81 | each message of the page gets its view, in the same position, with its sender's record |
| MessageController.ViewsDefined | backend/src/controllers/messageController.js:64-81 | a page has views exactly when every sender is a stored user (otherwise the handler throws) |
| MessageController.ReversedViews | backend/src/controllers/messageController.js:84 | reversing a newest-first page's views gives them oldest first, each in its mirrored place |
| MessageController.HistoryOldestFirst | backend/src/controllers/messageController.js:57-94 | the history is the store's page reversed, so oldest first, at most `limit` long (50 by default, none for a non-number), all of the chat, not deleted and older than the cursor; `hasMore` holds exactly when the page is full |
| MessageController.GetChatMessages | backend/src/controllers/messageController.js:57-94 | the loop over the page's senders yields the history above, or a server error when a sender is missing |
| MessageController.MarkAsRead | backend/src/controllers/messageController.js:96-115 | the caller's status for the message becomes `'read'` whatever it was; the messages are untouched |
| SocketService.EventNameInjective | frontend/src/services/socketService.js:94-134 | the six subscriptions listen to six different event names |
| SocketService.SocketClient.constructor | frontend/src/services/socketService.js:4-8 | no socket, not connected, no listeners, nothing emitted |
| SocketService.SocketClient.Connect | frontend/src/services/socketService.js:10-20 | nothing happens while the current socket is up; otherwise a new, not yet connected socket replaces it; nothing else changes |
| SocketService.SocketClient.TransportConnected | frontend/src/services/socketService.js:22-25 | the flag is set whichever socket fires, and the current socket is up only if it is the one that fired |
| SocketService.SocketClient.TransportDisconnected | frontend/src/services/socketService.js:27-30 | the flag is cleared so `isConnected` is false; only the socket that fired is marked down |
| SocketService.SocketClient.Disconnect | frontend/src/services/socketService.js:37-44 | with a socket, the socket becomes null, the flag false and the listeners empty; without one nothing changes |
| SocketService.SocketClient.EmitIfUp | frontend/src/services/socketService.js:61-91 | the event is emitted exactly when the socket is up, and nothing else changes |
| SocketService.SocketClient.SendMessage | frontend/src/services/socketService.js:47-58 | succeeds exactly when the socket is up and then emits exactly one `send_message` with type `'text'` by default; otherwise throws "Socket not connected" and emits nothing |
| SocketService.SocketClient.StartTyping | frontend/src/services/socketService.js:61-65 | one `typing_start` while the socket is up, nothing otherwise |
| SocketService.SocketClient.StopTyping | frontend/src/services/socketService.js:67-71 | one `typing_stop` while the socket is up, nothing otherwise |
| SocketService.SocketClient.MarkAsRead | frontend/src/services/socketService.js:74-78 | one `mark_read` while the socket is up, nothing otherwise |
| SocketService.SocketClient.JoinChatRoom | frontend/src/services/socketService.js:81-85 | one `join_chat` while the socket is up, nothing otherwise |
| SocketService.SocketClient.LeaveChatRoom | frontend/src/services/socketService.js:87-91 | one `leave_chat` while the socket is up, nothing otherwise |
| SocketService.SocketClient.On | frontend/src/services/socketService.js:94-134 | with a socket, the callback replaces the one remembered for that event; without a socket nothing changes |
| SocketService.SocketClient.Off | frontend/src/services/socketService.js:137-143 | with a socket, that event's callback is forgotten and no other |
| SocketService.SocketClient.RemoveAllListeners | frontend/src/services/socketService.js:145-152 | with a socket, no callback is remembered afterwards; without one nothing changes |
| SocketService.ListenersPerEvent | frontend/src/services/socketService.js:94-141 | after `on` the event's callback is the new one and others keep theirs; after `off` the event has none and others keep theirs |
| BrowserStorage.LocalStorage.constructor | frontend/src/services/messageService.js:5-6 | the storage starts with no key, so every cache read takes its empty branch |
| BrowserStorage.LocalStorage.MessagesOf | frontend/src/services/messageService.js:4-8 | exactly the chat's cached list when its key is stored, and an empty list otherwise |
| MessageService.AddCachedMessage | frontend/src/services/messageService.js:13-17 | the message is appended to that chat's cached list, every other chat keeps its list, and nothing else is stored |
| MessageService.LocalMessage | frontend/src/services/messageService.js:32-44 | the offline message has a `local_` id, status `'sent'`, the chat and content given, and the signed-in user as sender |
| MessageService.SendMessage | frontend/src/services/messageService.js:19-50 | the server's message, or offline a made-up one, is returned and appended to the chat's cache; offline without a stored user the call throws; other errors are rethrown with the cache unchanged |
| MessageService.GetChatMessages | frontend/src/services/messageService.js:52-69 | the server's page replaces the chat's cache (an absent list empties it); offline the cached list is returned with `hasMore` false; other errors are rethrown with the cache unchanged |
| MessageService.MarkAsRead | frontend/src/services/messageService.js:71-82 | the server's answer, or offline a `'read'` receipt for that id; other errors are rethrown |
| ChatService.WithChatSpec | frontend/src/services/chatService.js:13-21 | the chat is appended exactly when its id is not cached; afterwards the id is cached, cached ids stay unique, and adding the same chat again changes nothing |
| BrowserStorage.LocalId | frontend/src/services/chatService.js:32 | an id made up offline (token, chat or message) starts with `local_` |
| ChatService.AddCachedChat | frontend/src/services/chatService.js:13-21 | the cache becomes the list above, and the argument is returned whether or not it was added |
| ChatService.CreateChat | frontend/src/services/chatService.js:23-42 | the server's chat, or offline a `'private'` chat with a `local_` id, is returned and added to the cache; other errors are rethrown with the cache unchanged |
| ChatService.CreateGroup | frontend/src/services/chatService.js:48-68 | as `createChat`, the offline chat being a `'group'` with the name and the member ids |
| ChatService.GetUserChats | frontend/src/services/chatService.js:70-82 | the server's list replaces the cache (an absent list empties it); offline the cached list is returned; other errors are rethrown |
| ChatService.SearchUsers | frontend/src/services/chatService.js:84-104 | the server's result, or offline exactly the cached users that match, in cache order; other errors are rethrown |
| ChatService.CachedSearchSpec | frontend/src/services/chatService.js:93-100 | the offline result holds exactly the cached users that match, and an empty query matches all of them |
| AuthService.CacheUser | frontend/src/services/authService.js:5-9 | the cache entry for the user's phone becomes the user, and nothing else is stored |
| AuthService.CacheUserSpec | frontend/src/services/authService.js:7 | caching replaces the entry for that phone only, and a later lookup of the phone finds the new user |
| AuthService.CachedUser | frontend/src/services/authService.js:16-19 | the cached entry for the phone, or null when there is none |
| AuthService.LocalUser | frontend/src/services/authService.js:43-54 | the offline user is online, has falsy e-mail, last name and username as null, no bio or photo, and keeps the password |
| AuthService.Register | frontend/src/services/authService.js:21-65 | online, a reply with a token stores the token and user and caches the user with the password; offline, a cached phone is refused, otherwise a new online user is stored, cached and returned with a `local_` token; other errors are rethrown with storage unchanged |
| AuthService.OfflineLoginSpec | frontend/src/services/authService.js:81-89 | the offline login succeeds exactly when a user is cached under the identifier with the same password; the cache is keyed by phone, so a username never signs in |
| AuthService.Login | frontend/src/services/authService.js:67-99 | online, a reply with a token stores the token and user; offline, the matching cached user is stored with a `local_` token, anything else is refused with one message; other errors are rethrown |
| AuthService.Logout | frontend/src/services/authService.js:101-108 | token and user are removed whether or not the call fails, and a failure still propagates |
| AuthService.IsAuthenticated | frontend/src/services/authService.js:146-157 | authenticated exactly when a non-empty token is stored |
| AuthService.SignedInIsAuthenticated | frontend/src/services/authService.js:56-58 | a sign-in that stores a non-empty token, an offline one included, leaves the client authenticated |
| ChatPage.MessagesAfterNewSpec | frontend/src/pages/Chat.jsx:65-69 | the messages grow by the new one exactly when it belongs to the chat id captured when the page mounted, and are unchanged otherwise |
| ChatPage.ChatsAfterNewSpec | frontend/src/pages/Chat.jsx:72-84 | the list keeps its length and chats; the message's chat carries the new last message and time, other chats are unchanged in both directions; the list is sorted by `updatedAt` newest first, equal times kept in previous order |
| ChatPage.TouchedMembers | frontend/src/pages/Chat.jsx:72-83 | after the update, an entry of the message's chat carries the message, and exactly the other chats are kept as they were |
| ChatPage.TypingAfterStart | frontend/src/pages/Chat.jsx:87-91 | the first name is added exactly for the chat id captured when the page mounted and a user other than the signed-in one; otherwise the set is unchanged |
| ChatPage.TypingAfterStop | frontend/src/pages/Chat.jsx:93-101 | the typing set comes back unchanged, whichever chat the event is for |
| ChatPage.TypingNeverClears | frontend/src/pages/Chat.jsx:87-101 | a name in the typing set stays there after any start or stop event |
| ChatPage.StatusSpec | frontend/src/pages/Chat.jsx:105-113 | the status reaches exactly the private chats of that user, changing only the user's status; other chats and the order stay |
| ChatPage.OnStatusChanged | frontend/src/pages/Chat.jsx:103-122 | as written, the open chat is left as it is: the guard reads the `currentChat` of the first render, which is null |
| ChatPage.MountedOnChatListMissesOpenChat | frontend/src/pages/Chat.jsx:22-36 | a page mounted on `/chat` and moved to a chat shows neither that chat's new messages nor its typing names, while the intended handlers show both |
| ChatPage.IntendedHandlersSpec | frontend/src/pages/Chat.jsx:65-91 | handlers reading the route's chat id now append a new message exactly for the chat shown and add a typing name exactly for the chat shown and another user; nothing else of the page changes |
| ChatPage.StaleOpenChatStatus | frontend/src/pages/Chat.jsx:115-121 | with a private chat of that user open, the handler as written keeps the old status on the open chat, while the intended one shows the new one |
| ChatPage.IntendedStatusSpec | frontend/src/pages/Chat.jsx:103-122 | the intended handler updates the open chat exactly when it is a private chat of that user, changing only that user's status, and updates the list as before |
| ChatPage.ReadSpec | frontend/src/pages/Chat.jsx:124-131 | exactly the messages with that id become `'read'`, nothing else of them changes, the order stays, and a second receipt changes nothing |
| ChatPage.MaySendSpec | frontend/src/pages/Chat.jsx:173 | a send goes ahead exactly when the input has a non-whitespace character and a chat is open |
| ChatPage.HandleSendMessage | frontend/src/pages/Chat.jsx:171-186 | past the guard and with the socket up, the untrimmed input is sent as a text message, the input is cleared and typing stopped; with the socket down the error leaves the input; the guard failing changes nothing |
| SearchPage.AfterClickSpec | frontend/src/pages/Search.jsx:63 | after a click the list starts with the user, holds its id once, has at most ten entries, and continues with the other recent users in their order; unique ids stay unique |
| SearchPage.RemoveRecent | frontend/src/pages/Search.jsx:83-87 | no entry with that id is left, exactly the entries with other ids remain, and they keep their order |
| SearchPage.ClearRecent | frontend/src/pages/Search.jsx:77-80 | the list is empty |
| SearchPage.ResultsAfter | frontend/src/pages/Search.jsx:31-59 | a query shorter than 3 clears the results; otherwise the server's users (none if missing), and none after an error |
| SearchPage.SearchesWhatBackendAccepts | frontend/src/pages/Search.jsx:31 | the page sends exactly the queries the backend's user search accepts |
| UserLists.Ids | frontend/src/pages/Settings.jsx:61 | one id per selected user, in selection order |
| UserLists.WithoutUserSpec | frontend/src/pages/Search.jsx:84 | removing a user keeps exactly the entries with other ids, in order; no entry with the id is left; a list without it is unchanged; unique ids stay unique |
| UserLists.UniqueIdsFilter | frontend/src/components/CreateGroupModal.jsx:37 | filtering a list with unique ids keeps them unique |
| CreateGroupModal.ToggleMemberSpec | frontend/src/components/CreateGroupModal.jsx:34-45 | a selected user is removed, every entry with its id; an unselected one is appended below 199 selected and refused with the selection unchanged at 199; distinct ids and at most 199 entries are kept |
| CreateGroupModal.CreateRequestSpec | frontend/src/components/CreateGroupModal.jsx:47-61 | no request for a blank name or an empty selection (a blank name reported first); otherwise the request carries the untrimmed name and every selected id in order |
| CreateGroupModal.Close | frontend/src/components/CreateGroupModal.jsx:73-79 | name, query, results and selection are all empty |
| CreateGroupModal.AfterCreate | frontend/src/components/CreateGroupModal.jsx:59-70 | a group returned by the chat service, the server's or the offline one, closes the dialog with everything emptied; an error it throws leaves the dialog as it was |
| CreateGroupModal.HandleCreateGroup | frontend/src/components/CreateGroupModal.jsx:47-71 | the guard refuses without touching anything; past it, a success or a network or 5xx error closes the dialog and caches the server's or the offline group; any other error keeps the dialog and the cache |
| CreateGroupModal.ResultsAfter | frontend/src/components/CreateGroupModal.jsx:14-32 | a query shorter than 2 clears the results; otherwise the server's users (none if missing), and after an error the previous results |
| CreateGroupModal.TwoCharacterQuery | frontend/src/components/CreateGroupModal.jsx:15-25 | a two-character query is sent, the backend's search refuses it, and the previous results stay on screen |
| SettingsPage.ToggleUserSpec | frontend/src/pages/Settings.jsx:37-46 | a selected id is removed, every entry of it; an unselected user is appended whatever the size; unique ids stay unique |
| SettingsPage.ToggleTwice | frontend/src/pages/Settings.jsx:37-46 | toggling an unselected user twice gives back the starting selection |
| SettingsPage.CreateRequestSpec | frontend/src/pages/Settings.jsx:48-66 | no request for a blank name or an empty selection; otherwise a non-empty name without surrounding whitespace taken from the typed one, the trimmed description and every selected id in order |
| SettingsPage.TrimEnds | frontend/src/pages/Settings.jsx:63 | a non-empty trimmed string neither starts nor ends with whitespace |
| SettingsPage.Reset | frontend/src/pages/Settings.jsx:70-76 | the form is closed and name, description, selection, query and results are empty |
| SettingsPage.AfterCreate | frontend/src/pages/Settings.jsx:67-86 | a created group resets the form and navigates to its chat; a failure leaves the form as it was and goes nowhere |
| SettingsPage.Search | frontend/src/pages/Settings.jsx:18-35 | the query is stored; one shorter than 2 clears the results without a request; a success shows the server's users (none if missing); an error keeps the previous results; nothing else changes |
| Sorting.SortDesc | backend/src/models/Message.js:35-36 | the result is a permutation of the input: same length, same multiset |
| Sorting.SortDescSorted | backend/src/controllers/chatController.js:174-176 | the sorted sequence has non-increasing keys (newest first) |
| Sorting.SortDescStable | frontend/src/pages/Chat.jsx:84 | among records with equal keys the sort keeps their input order, as `Array.prototype.sort` does |
| Seqs.SliceTo | backend/src/models/Message.js:37 | `slice(0, end)` is a prefix of the input of length `end` clamped to the input, with a negative `end` counted from the back |
| Seqs.Reverse | backend/src/controllers/messageController.js:84 | the reversed sequence has the same length and element `i` is element `n - 1 - i` of the input |
| Seqs.ReverseReverse | backend/src/controllers/messageController.js:84 | reversing twice gives back the input |
| Seqs.FirstSpec | frontend/src/pages/Settings.jsx:39 | `find` returns the first element satisfying the predicate, and nothing exactly when no element does |
| Seqs.FilterMembership | frontend/src/pages/Search.jsx:63 | `filter` keeps exactly the elements that satisfy the predicate |
| Text.TrimEmpty | backend/src/controllers/messageController.js:10 | `trim()` is empty exactly when the string is whitespace only |
| Text.TrimIsInfix | backend/src/controllers/chatController.js:95 | the trimmed string is a slice of the input with only whitespace cut off either end |
| Text.ToLower | backend/src/controllers/chatController.js:201 | `toLowerCase()` keeps the length and maps each letter A-Z to its lower case, other characters unchanged |
| Text.IncludesAt | backend/src/controllers/chatController.js:206-210 | `includes` holds exactly when the needle occurs at some position of the string |
| Text.NatToString | frontend/src/services/authService.js:44 | `String(n)` of a non-negative integer is a non-empty string of decimal digits |
| OrderedMaps.OrderedMap.Set | backend/src/config/database.js:17 | after `set` the key maps to the value, every other key is unchanged, and a new key is appended to the iteration order |
| OrderedMaps.OrderedMap.Delete | backend/src/config/database.js:70 | after `delete` the key is absent, every other key is unchanged, and deleting an absent key changes nothing |
| OrderedMaps.OrderedMap.Values | backend/src/config/database.js:34 | `values()` lists the entries in insertion order, one per key |
| OrderedMaps.ValuesExact | backend/src/config/database.js:34 | `values()` holds exactly the stored values, as many as there are keys |
| OrderedMaps.SetTwice | backend/src/config/database.js:17 | setting a key twice equals setting it once to the second value |
| Wrappers.Option.GetOr | frontend/src/pages/Search.jsx:51 | `x \|\| default` is the value when present and the default otherwise |

## Left out

- HTTP routing, Express and socket.io wiring, CORS, rate limiting and the migration script: plumbing with no decisions of their own.
- `jwt.sign`/`jwt.verify`, the SHA-256 token hash and bcrypt `hash`/`compare`: uninterpreted function parameters wherever they are called.
- Wall-clock time and random ids: the clock is an integer parameter and ids are parameters. Date parsing is not modelled.
- ChatController.CreateOrGetPrivateChat and ChatController.CreateGroup require a chat id not yet in use, standing for the random id the source generates.
- Asynchrony, concurrency and delivery order of socket.io: every `await` is a sequential step, and an emit is recorded as its set of recipient sockets.
- The client-side socket.io library's own handler list: `SocketService` keeps its `listeners` map and the flags the source reads.
- Backend `logout`, `getProfile` and `updateProfilePhoto` (authController.js): outside the modelled decision logic.
- Frontend `authService.getProfile`, `updateProfile`, `updateProfilePhoto` and `searchUsers`: single API calls with a storage write, no fallback logic.
- Frontend `authService.getToken` and `getUser`: plain reads of the stored `token` and `user`, used directly as `BrowserStorage` fields.
- `chatService.createPrivateChat`: an alias of `createChat`.
- `User.findOne`, `findById`, `findAll` and `update`: each passes straight to the database operation of the same name (`MockDatabase.Db.FindOneUser`, `FindUserById`, `AllUsers`, `UpdateUser`).
- `db.chats.findAll` and `db.messages.findAll`: no modelled operation calls them.
- Joi and Yup semantics beyond the stated patterns and lengths: the email format is the parameter `isEmail`, and the handling of unknown keys and Joi's messages is not modelled.
- String lengths count UTF-16 code units in the source; the model counts characters, which is the same for the ASCII inputs the patterns accept.
- Text.ToLower: folds only A-Z, not the full Unicode case mapping of `toLowerCase`.
- Environment overrides of `MAX_LOGIN_ATTEMPTS` and `ACCOUNT_LOCK_TIME`: the defaults, 5 attempts and 900000 ms, are constants.
- The test users that `connectDatabase` seeds: fixture data.
- `localStorage` serialisation (`JSON.stringify`/`JSON.parse`): storage holds typed values.
- A stored message whose `messageType` is null: the model keeps the type as a string.
- The property order of JavaScript objects: records are datatypes.
- The typing debounce of the chat page and the search debounce of the search page: only the length gate is modelled.
- Toasts, navigation, rendering and the Formik/Yup forms (Register, Login, Profile, UserSearch, App, groupService).
- ChatPage.ChatUser: offline local private chats that lack a `user` field are not represented; every private entry carries its user.
- `Session.js`: it only delegates to the database's session operations, which are modelled.

## Findings

| source | as written | input that shows it | evidently intended | confidence | as-written member | corrected member |
|---|---|---|---|---|---|---|
| backend/src/controllers/authController.js:298-306 | the username check looks up `findOne({ username })`, but the database's `findOne` honours only `phone` and `_id`, so it never finds anybody | another user holds username "alice" and the caller requests "alice" | refuse with 409 `USERNAME_EXISTS` | not executed | AuthController.AsWrittenAcceptsTakenUsername | AuthController.UpdateProfileCorrected |
| frontend/src/pages/Chat.jsx:65-91 | the socket handlers are registered once, when the page mounts, and compare each message and typing event with the route's `chatId` of that first render | log in (the page opens on `/chat`, then moves to `/chat/<first chat>` in the same instance) and receive a message or a typing event for that chat | show the message and the typing name of the chat on screen | not executed | ChatPage.MountedOnChatListMissesOpenChat | ChatPage.IntendedHandlersSpec |
| frontend/src/pages/Chat.jsx:115-121 | the open-chat update of `handleUserStatusChanged` is guarded by the `currentChat` of the first render, which is always null | a private chat with user U is open and `user_status_changed` with U and `'offline'` arrives | the open chat shows U's new status | not executed | ChatPage.StaleOpenChatStatus | ChatPage.IntendedStatusSpec |
