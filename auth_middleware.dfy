/**
 * The request gate of backend/src/middleware/auth.js: a `Bearer` header, a
 * token the verifier accepts, and a live session, in that order; on success
 * the session's last activity is stamped and the request carries its user.
 * `verify` and `hashToken` stand for the JWT check and the SHA-256 digest.
 */
module AuthMiddleware {
  import opened Wrappers
  import opened Text
  import opened JsValues
  import opened OrderedMaps
  import opened MockDatabase

  const BEARER := "Bearer "

  /** `req.user` as the gate fills it in. */
  datatype RequestUser = RequestUser(userId: string, phone: string, firstName: Option<string>,
                                     lastName: Option<string>, status: Presence)

  /** 401 responses, the 500 the handler's catch sends, or `next()` with the request's user. */
  datatype Outcome =
    | Unauthorized(message: string)
    | InternalError
    | Next(user: RequestUser)

  function ToRequestUser(u: User): RequestUser {
    RequestUser(u.id, u.phone, u.firstName, u.lastName, u.status)
  }

  /** `authHeader.substring(7)` for a header that starts with `"Bearer "`. */
  function BearerToken(header: string): (token: string)
    requires StartsWith(header, BEARER)
    ensures header == BEARER + token
  {
    header[|BEARER|..]
  }

  /**
   * The decision the gate reaches for `header` against the session and user
   * tables as they are at time `now`.
   */
  function Decide(sessions: OrderedMap<string, Session>, users: OrderedMap<string, User>,
                  header: Option<string>, verify: string -> bool, hashToken: string -> string,
                  now: Time): Outcome
  {
    if header.None? || header.value == "" || !StartsWith(header.value, BEARER) then
      Unauthorized("Token topilmadi")
    else
      var token := BearerToken(header.value);
      if !verify(token) then Unauthorized("Noto'g'ri yoki muddati o'tgan token")
      else
        var tokenHash := hashToken(token);
        if tokenHash == "" || tokenHash !in sessions.entries || sessions.entries[tokenHash].expiresAt <= now then
          Unauthorized("Sessiya topilmadi")
        else
          var userId := sessions.entries[tokenHash].userId;
          if userId in users.entries then Next(ToRequestUser(users.entries[userId])) else InternalError
  }

  /** A header that is missing or does not start with `"Bearer "` is refused before anything is looked up. */
  lemma NoBearerRejected(sessions: OrderedMap<string, Session>, users: OrderedMap<string, User>,
                         header: Option<string>, verify: string -> bool, hashToken: string -> string, now: Time)
    requires header.None? || !StartsWith(header.value, BEARER)
    ensures Decide(sessions, users, header, verify, hashToken, now) == Unauthorized("Token topilmadi")
  {
  }

  /**
   * `next()` is reached only for a `Bearer` header whose token verifies and
   * whose digest names a session that expires after `now`; the request then
   * carries that session's user.
   */
  lemma NextMeansLiveSession(sessions: OrderedMap<string, Session>, users: OrderedMap<string, User>,
                             header: Option<string>, verify: string -> bool, hashToken: string -> string, now: Time)
    ensures Decide(sessions, users, header, verify, hashToken, now).Next? <==>
      && header.Some? && StartsWith(header.value, BEARER)
      && var token := header.value[|BEARER|..];
      && verify(token)
      && hashToken(token) in sessions.entries && hashToken(token) != ""
      && sessions.entries[hashToken(token)].expiresAt > now
      && sessions.entries[hashToken(token)].userId in users.entries
    ensures Decide(sessions, users, header, verify, hashToken, now).Next? ==>
      var s := sessions.entries[hashToken(header.value[|BEARER|..])];
      Decide(sessions, users, header, verify, hashToken, now).user == ToRequestUser(users.entries[s.userId])
  {
  }

  /** A session whose expiry is not after `now` is refused, whatever the token. */
  lemma ExpiredSessionRejected(sessions: OrderedMap<string, Session>, users: OrderedMap<string, User>,
                               header: string, verify: string -> bool, hashToken: string -> string, now: Time)
    requires StartsWith(header, BEARER) && verify(BearerToken(header))
    requires hashToken(BearerToken(header)) in sessions.entries
    requires sessions.entries[hashToken(BearerToken(header))].expiresAt <= now
    ensures Decide(sessions, users, Some(header), verify, hashToken, now).Unauthorized?
  {
  }

  /**
   * `authenticate`: the decision above; on the success path and on the path
   * where the session's user has vanished, the session's `lastActivity` is
   * stamped first. Nothing else in the database changes.
   */
  method Authenticate(db: Db, header: Option<string>, verify: string -> bool,
                      hashToken: string -> string, now: Time) returns (out: Outcome)
    requires db.Valid()
    modifies db
    ensures db.Valid()
    ensures out == Decide(old(db.sessions), old(db.users), header, verify, hashToken, now)
    ensures out.Unauthorized? ==> db.sessions == old(db.sessions)
    ensures !out.Unauthorized? ==>
      var h := hashToken(BearerToken(header.value));
      db.sessions == old(db.sessions).Set(h, old(db.sessions.entries[h]).(lastActivity := Some(now)))
    ensures db.users == old(db.users) && db.chats == old(db.chats) && db.messages == old(db.messages)
  {
    if header.None? || header.value == "" || !StartsWith(header.value, BEARER) {
      return Unauthorized("Token topilmadi");
    }
    var token := BearerToken(header.value);
    if !verify(token) {
      return Unauthorized("Noto'g'ri yoki muddati o'tgan token");
    }
    var tokenHash := hashToken(token);
    var session := db.FindSession(Str(tokenHash), now);
    if session.None? || session.value.expiresAt <= now {
      return Unauthorized("Sessiya topilmadi");
    }
    var _ := db.UpdateSession(session.value.tokenHash, now);
    var user := db.FindUserById(session.value.userId);
    if user.None? {
      return InternalError;
    }
    return Next(ToRequestUser(user.value));
  }
}
