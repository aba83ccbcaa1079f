/**
 * The in-memory mock database of backend/src/config/database.js: four
 * insertion-ordered maps (users, sessions, chats, messages) with create,
 * lookup, `Object.assign` merge-update and, for sessions, an expiry-checked
 * lookup and delete.
 */
module MockDatabase {
  import opened Wrappers
  import opened Seqs
  import opened OrderedMaps
  import opened JsValues

  type Time = int

  datatype Presence = Online | Offline

  /** A user record as the backend stores it. */
  datatype User = User(
    id: string, phone: string, email: Option<string>, passwordHash: string,
    firstName: Option<string>, lastName: Option<string>, username: Option<string>,
    bio: Option<string>, profilePhotoUrl: Option<string>, status: Presence,
    lastSeen: Option<Time>, failedLoginAttempts: int, accountLockedUntil: Option<Time>,
    createdAt: Time, updatedAt: Time)

  /** The fields a caller hands to `users.create`. */
  datatype UserData = UserData(
    phone: string, email: Option<string>, passwordHash: string,
    firstName: Option<string>, lastName: Option<string>, username: Option<string>,
    bio: Option<string>, profilePhotoUrl: Option<string>, status: Presence,
    lastSeen: Option<Time>, failedLoginAttempts: int, accountLockedUntil: Option<Time>)

  /**
   * The second argument of `users.update`: either a partial object (a field
   * is `Undefined`/`None` when the object does not carry it) or a whole user
   * record written back by `User.save`.
   */
  datatype UserUpdate =
    | Patch(firstName: JsString, lastName: JsString, username: JsString, bio: JsString,
            status: Option<Presence>, lastSeen: Option<Time>, profilePhotoUrl: Option<string>)
    | Whole(user: User)

  /** The query object of `users.findOne`; only `phone` and `_id` are looked at. */
  datatype UserQuery = UserQuery(phone: JsString, id: JsString, username: JsString)

  datatype SessionData = SessionData(userId: string, tokenHash: string, deviceInfo: string,
                                     ipAddress: Option<string>, expiresAt: Time)

  datatype Session = Session(id: string, userId: string, tokenHash: string, deviceInfo: string,
                             ipAddress: Option<string>, expiresAt: Time, createdAt: Time,
                             lastActivity: Option<Time>)

  /** Chat and message records of this database carry whatever fields their creator passes. */
  datatype Value = Text(s: string) | Number(n: int) | Null
  type Doc = map<string, Value>

  /** `{ _id, ...userData, createdAt, updatedAt }`. */
  function NewUser(id: string, d: UserData, now: Time): (u: User)
    ensures u.id == id && u.createdAt == now && u.updatedAt == now
    ensures u.phone == d.phone && u.email == d.email && u.passwordHash == d.passwordHash
    ensures u.firstName == d.firstName && u.lastName == d.lastName && u.username == d.username
    ensures u.bio == d.bio && u.profilePhotoUrl == d.profilePhotoUrl && u.status == d.status
    ensures u.lastSeen == d.lastSeen && u.failedLoginAttempts == d.failedLoginAttempts
    ensures u.accountLockedUntil == d.accountLockedUntil
  {
    User(id, d.phone, d.email, d.passwordHash, d.firstName, d.lastName, d.username, d.bio,
         d.profilePhotoUrl, d.status, d.lastSeen, d.failedLoginAttempts, d.accountLockedUntil,
         now, now)
  }

  /** `Object.assign(user, updates, { updatedAt })` for a field that is a nullable string. */
  function MergeField(current: Option<string>, v: JsString): (r: Option<string>)
    ensures v.Undefined? ==> r == current
    ensures v.Null? ==> r == None
    ensures v.Str? ==> r == Some(v.value)
  {
    if v.Undefined? then current else Stored(v)
  }

  /** `Object.assign(user, updates, { updatedAt: now })`. */
  function Merge(u: User, upd: UserUpdate, now: Time): (r: User)
    ensures r.updatedAt == now
    ensures upd.Whole? ==> r == upd.user.(updatedAt := now)
    ensures upd.Patch? ==>
      && r.id == u.id && r.phone == u.phone && r.email == u.email && r.passwordHash == u.passwordHash
      && r.failedLoginAttempts == u.failedLoginAttempts && r.accountLockedUntil == u.accountLockedUntil
      && r.createdAt == u.createdAt
      && r.firstName == MergeField(u.firstName, upd.firstName)
      && r.lastName == MergeField(u.lastName, upd.lastName)
      && r.username == MergeField(u.username, upd.username)
      && r.bio == MergeField(u.bio, upd.bio)
      && r.status == upd.status.GetOr(u.status)
      && r.lastSeen == (if upd.lastSeen.Some? then upd.lastSeen else u.lastSeen)
      && r.profilePhotoUrl == (if upd.profilePhotoUrl.Some? then upd.profilePhotoUrl else u.profilePhotoUrl)
  {
    match upd
    case Whole(w) => w.(updatedAt := now)
    case Patch(fn, ln, un, b, st, ls, ph) =>
      u.(firstName := MergeField(u.firstName, fn), lastName := MergeField(u.lastName, ln),
         username := MergeField(u.username, un), bio := MergeField(u.bio, b),
         status := st.GetOr(u.status), lastSeen := if ls.Some? then ls else u.lastSeen,
         profilePhotoUrl := if ph.Some? then ph else u.profilePhotoUrl, updatedAt := now)
  }

  /** The per-user test of `users.findOne`: a truthy `phone` or `_id` that equals the user's. */
  predicate QueryMatches(q: UserQuery, u: User) {
    (Truthy(q.phone) && u.phone == q.phone.value) || (Truthy(q.id) && u.id == q.id.value)
  }

  /** `users.findOne(query)` over the users in map order. */
  function FirstUserMatching(us: seq<User>, q: UserQuery): Option<User> {
    First(us, (u: User) => QueryMatches(q, u))
  }

  /**
   * `users.findOne` returns the first user whose phone (or id) equals a truthy
   * query field, and null exactly when there is none.
   */
  lemma FindOneSpec(us: seq<User>, q: UserQuery)
    ensures FirstUserMatching(us, q).Some? ==>
      var u := FirstUserMatching(us, q).value;
      u in us && QueryMatches(q, u)
      && exists i :: 0 <= i < |us| && us[i] == u && forall j :: 0 <= j < i ==> !QueryMatches(q, us[j])
    ensures FirstUserMatching(us, q).None? <==> forall u :: u in us ==> !QueryMatches(q, u)
  {
    FirstSpec(us, (u: User) => QueryMatches(q, u));
  }

  /** A query without a truthy phone or id finds nobody, whatever else it names. */
  lemma FindOneIgnoresOtherKeys(us: seq<User>, q: UserQuery)
    requires !Truthy(q.phone) && !Truthy(q.id)
    ensures FirstUserMatching(us, q) == None
  {
    FirstSpec(us, (u: User) => QueryMatches(q, u));
  }

  /** A record created with `_id` first and then the spread data: the data may override it. */
  function NewDoc(id: string, data: Doc, stamps: Doc): (d: Doc)
    ensures "_id" in d
    ensures forall f :: f in d <==> f == "_id" || f in data || f in stamps
    ensures forall f :: f in stamps ==> f in d && d[f] == stamps[f]
    ensures forall f :: f in data && f !in stamps ==> f in d && d[f] == data[f]
    ensures "_id" !in data && "_id" !in stamps ==> d["_id"] == Text(id)
  {
    map["_id" := Text(id)] + data + stamps
  }

  class Db {
    var users: OrderedMap<string, User>
    var sessions: OrderedMap<string, Session>
    var chats: OrderedMap<Value, Doc>
    var messages: OrderedMap<Value, Doc>

    /** Users are stored under their id, sessions under their token hash, records under their `_id`. */
    ghost predicate Valid()
      reads this
    {
      && users.Valid() && sessions.Valid() && chats.Valid() && messages.Valid()
      && (forall k :: k in users.entries ==> users.entries[k].id == k)
      && (forall k :: k in sessions.entries ==> sessions.entries[k].tokenHash == k)
      && (forall k :: k in chats.entries ==> "_id" in chats.entries[k] && chats.entries[k]["_id"] == k)
      && (forall k :: k in messages.entries ==> "_id" in messages.entries[k] && messages.entries[k]["_id"] == k)
    }

    constructor ()
      ensures Valid()
      ensures users == Empty() && sessions == Empty() && chats == Empty() && messages == Empty()
    {
      users, sessions, chats, messages := Empty(), Empty(), Empty(), Empty();
    }

    // ---- users ----

    /** `users.create`: the record gets the id and both timestamps and is stored under its id. */
    method CreateUser(id: string, data: UserData, now: Time) returns (u: User)
      requires Valid()
      modifies this
      ensures Valid()
      ensures u == NewUser(id, data, now)
      ensures users == old(users).Set(id, u)
      ensures sessions == old(sessions) && chats == old(chats) && messages == old(messages)
      ensures FindUserById(id) == Some(u)
    {
      u := NewUser(id, data, now);
      users := users.Set(id, u);
    }

    /** `users.findOne`, the for-of loop over `users.values()`. */
    method FindOneUser(q: UserQuery) returns (r: Option<User>)
      requires Valid()
      ensures r == FirstUserMatching(users.Values(), q)
    {
      var us := users.Values();
      var i := 0;
      while i < |users.keys|
        invariant 0 <= i <= |users.keys|
        invariant FirstUserMatching(us, q) == FirstUserMatching(us[i..], q)
      {
        var user := users.entries[users.keys[i]];
        FirstFrom(us, i, (u: User) => QueryMatches(q, u));
        if Truthy(q.phone) && user.phone == q.phone.value {
          return Some(user);
        }
        if Truthy(q.id) && user.id == q.id.value {
          return Some(user);
        }
        i := i + 1;
      }
      assert us[i..] == [];
      return None;
    }

    /** `users.findById`: the record stored under `id`, or null. */
    function FindUserById(id: string): (r: Option<User>)
      requires Valid()
      reads this
      ensures r.Some? <==> id in users.entries
      ensures r.Some? ==> r.value.id == id && r.value == users.entries[id]
    {
      users.Get(id)
    }

    /** `users.findAll`: every stored user, in insertion order. */
    function AllUsers(): (r: seq<User>)
      requires Valid()
      reads this
      ensures |r| == |users.entries|
      ensures forall u :: u in r <==> u in users.entries.Values
    {
      ValuesExact(users);
      users.Values()
    }

    /**
     * `users.update`: merges into an existing record and stamps `updatedAt`;
     * an unknown id changes nothing and yields `undefined`.
     */
    method UpdateUser(id: string, upd: UserUpdate, now: Time) returns (r: Option<User>)
      requires Valid()
      requires upd.Whole? ==> upd.user.id == id
      modifies this
      ensures Valid()
      ensures id in old(users.entries) ==>
        r == Some(Merge(old(users.entries[id]), upd, now)) && users == old(users).Set(id, r.value)
      ensures id !in old(users.entries) ==> r == None && users == old(users)
      ensures sessions == old(sessions) && chats == old(chats) && messages == old(messages)
    {
      var user := users.Get(id);
      if user.Some? {
        var merged := Merge(user.value, upd, now);
        users := users.Set(id, merged);
        r := Some(merged);
      } else {
        r := None;
      }
    }

    // ---- sessions ----

    /** `sessions.create`: the session is stored under its `tokenHash`. */
    method CreateSession(id: string, data: SessionData, now: Time) returns (s: Session)
      requires Valid()
      modifies this
      ensures Valid()
      ensures s == Session(id, data.userId, data.tokenHash, data.deviceInfo, data.ipAddress,
                           data.expiresAt, now, None)
      ensures sessions == old(sessions).Set(data.tokenHash, s)
      ensures users == old(users) && chats == old(chats) && messages == old(messages)
    {
      s := Session(id, data.userId, data.tokenHash, data.deviceInfo, data.ipAddress,
                   data.expiresAt, now, None);
      sessions := sessions.Set(data.tokenHash, s);
    }

    /** `sessions.findOne({ tokenHash })` at time `now`: only a present session that has not expired. */
    function FindSession(tokenHash: JsString, now: Time): (r: Option<Session>)
      requires Valid()
      reads this
      ensures r.Some? <==>
        Truthy(tokenHash) && tokenHash.value in sessions.entries
        && sessions.entries[tokenHash.value].expiresAt > now
      ensures r.Some? ==> r.value == sessions.entries[tokenHash.value] && r.value.tokenHash == tokenHash.value
    {
      if Truthy(tokenHash) then
        match sessions.Get(tokenHash.value)
        case Some(s) => if s.expiresAt > now then Some(s) else None
        case None => None
      else None
    }

    /** `sessions.deleteOne({ tokenHash })`: afterwards no lookup finds that session. */
    method DeleteSession(tokenHash: JsString)
      requires Valid()
      modifies this
      ensures Valid()
      ensures Truthy(tokenHash) ==> sessions == old(sessions).Delete(tokenHash.value)
      ensures !Truthy(tokenHash) ==> sessions == old(sessions)
      ensures forall now :: FindSession(tokenHash, now) == None
      ensures users == old(users) && chats == old(chats) && messages == old(messages)
    {
      if Truthy(tokenHash) {
        sessions := sessions.Delete(tokenHash.value);
      }
    }

    /** `sessions.update(tokenHash, { lastActivity })`: no `updatedAt` stamp; a missing key is a no-op. */
    method UpdateSession(tokenHash: string, lastActivity: Time) returns (r: Option<Session>)
      requires Valid()
      modifies this
      ensures Valid()
      ensures tokenHash in old(sessions.entries) ==>
        r == Some(old(sessions.entries[tokenHash]).(lastActivity := Some(lastActivity)))
        && sessions == old(sessions).Set(tokenHash, r.value)
      ensures tokenHash !in old(sessions.entries) ==> r == None && sessions == old(sessions)
      ensures users == old(users) && chats == old(chats) && messages == old(messages)
    {
      var s := sessions.Get(tokenHash);
      if s.Some? {
        var merged := s.value.(lastActivity := Some(lastActivity));
        sessions := sessions.Set(tokenHash, merged);
        r := Some(merged);
      } else {
        r := None;
      }
    }

    // ---- chats ----

    /** `chats.create`: `{ _id, ...chatData, createdAt, updatedAt }` stored under its `_id`. */
    method CreateChat(id: string, data: Doc, now: Time) returns (c: Doc)
      requires Valid()
      modifies this
      ensures Valid()
      ensures c == NewDoc(id, data, map["createdAt" := Number(now), "updatedAt" := Number(now)])
      ensures chats == old(chats).Set(c["_id"], c)
      ensures users == old(users) && sessions == old(sessions) && messages == old(messages)
    {
      c := NewDoc(id, data, map["createdAt" := Number(now), "updatedAt" := Number(now)]);
      chats := chats.Set(c["_id"], c);
    }

    /** `chats.findById`. */
    function FindChatById(id: Value): (r: Option<Doc>)
      requires Valid()
      reads this
      ensures r.Some? <==> id in chats.entries
      ensures r.Some? ==> "_id" in r.value && r.value["_id"] == id
    {
      chats.Get(id)
    }

    /** `chats.update`: merge, then stamp `updatedAt`; a missing key is a no-op. */
    method UpdateChat(id: Value, updates: Doc, now: Time) returns (r: Option<Doc>)
      requires Valid()
      requires "_id" in updates ==> updates["_id"] == id
      modifies this
      ensures Valid()
      ensures id in old(chats.entries) ==>
        r == Some(old(chats.entries[id]) + updates + map["updatedAt" := Number(now)])
        && chats == old(chats).Set(id, r.value)
      ensures id !in old(chats.entries) ==> r == None && chats == old(chats)
      ensures users == old(users) && sessions == old(sessions) && messages == old(messages)
    {
      var c := chats.Get(id);
      if c.Some? {
        var merged := c.value + updates + map["updatedAt" := Number(now)];
        chats := chats.Set(id, merged);
        r := Some(merged);
      } else {
        r := None;
      }
    }

    // ---- messages ----

    /** `messages.create`: `{ _id, ...messageData, createdAt }` stored under its `_id`. */
    method CreateMessage(id: string, data: Doc, now: Time) returns (m: Doc)
      requires Valid()
      modifies this
      ensures Valid()
      ensures m == NewDoc(id, data, map["createdAt" := Number(now)])
      ensures messages == old(messages).Set(m["_id"], m)
      ensures users == old(users) && sessions == old(sessions) && chats == old(chats)
    {
      m := NewDoc(id, data, map["createdAt" := Number(now)]);
      messages := messages.Set(m["_id"], m);
    }

    /** `messages.findById`. */
    function FindMessageById(id: Value): (r: Option<Doc>)
      requires Valid()
      reads this
      ensures r.Some? <==> id in messages.entries
      ensures r.Some? ==> "_id" in r.value && r.value["_id"] == id
    {
      messages.Get(id)
    }

    /** `messages.update`: merge without a timestamp; a missing key is a no-op. */
    method UpdateMessage(id: Value, updates: Doc) returns (r: Option<Doc>)
      requires Valid()
      requires "_id" in updates ==> updates["_id"] == id
      modifies this
      ensures Valid()
      ensures id in old(messages.entries) ==>
        r == Some(old(messages.entries[id]) + updates) && messages == old(messages).Set(id, r.value)
      ensures id !in old(messages.entries) ==> r == None && messages == old(messages)
      ensures users == old(users) && sessions == old(sessions) && chats == old(chats)
    {
      var m := messages.Get(id);
      if m.Some? {
        var merged := m.value + updates;
        messages := messages.Set(id, merged);
        r := Some(merged);
      } else {
        r := None;
      }
    }
  }
}
