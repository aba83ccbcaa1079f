/**
 * The account handlers of backend/src/controllers/authController.js:
 * registration with its uniqueness checks, login with the failed-attempt
 * lockout, profile update with its field bounds, and user search. Token
 * issue, token digest, password hash and password comparison are the
 * parameters `makeToken`, `hashToken`, `hashPassword` and `passwordMatches`.
 */
module AuthController {
  import opened Wrappers
  import opened Seqs
  import opened JsValues
  import opened OrderedMaps
  import opened MockDatabase
  import UserModel
  import Password
  import Validation

  const MAX_LOGIN_ATTEMPTS := 5
  const ACCOUNT_LOCK_TIME := 900000

  /** The JSON replies of the handlers. */
  datatype AuthReply =
    | Authenticated(status: int, user: User, token: string, expiresAt: Time)
    | Refused(status: int, error: string, attemptsLeft: Option<int>)

  /** What the server records about the client that makes the request. */
  datatype Client = Client(deviceInfo: string, ipAddress: Option<string>)

  /** The outside services the handlers call. */
  datatype Services = Services(makeToken: (string, string) -> string, hashToken: string -> string,
                               hashPassword: string -> string, passwordMatches: (string, string) -> bool)

  function Refuse(status: int, error: string): AuthReply {
    Refused(status, error, None)
  }

  // ---- register ----

  predicate HasEmail(email: string, u: User) { u.email == Some(email) }
  predicate HasUsername(username: string, u: User) { u.username == Some(username) }

  /** The checks `register` makes before it creates anything, in their order. */
  function RegisterError(us: seq<User>, d: Validation.RegisterData): Option<AuthReply>
  {
    if !Password.ValidatePasswordStrength(d.password).valid then Some(Refuse(400, "PASSWORD_TOO_WEAK"))
    else if FirstUserMatching(us, UserQuery(Str(d.phone), Undefined, Undefined)).Some? then
      Some(Refuse(409, "PHONE_EXISTS"))
    else if Truthy(d.email) && First(us, (u: User) => HasEmail(d.email.value, u)).Some? then
      Some(Refuse(409, "EMAIL_EXISTS"))
    else if Truthy(d.username) && First(us, (u: User) => HasUsername(d.username.value, u)).Some? then
      Some(Refuse(409, "USERNAME_EXISTS"))
    else None
  }

  /**
   * A weak password is refused before any lookup; then a taken phone, a taken
   * e-mail (when one is given) and a taken username (when one is given), in
   * that order; registration goes ahead exactly when none of these holds.
   */
  lemma RegisterErrorMeans(us: seq<User>, d: Validation.RegisterData)
    requires d.phone != ""
    ensures |d.password| < 8 ==> RegisterError(us, d) == Some(Refuse(400, "PASSWORD_TOO_WEAK"))
    ensures |d.password| >= 8 && (exists u :: u in us && u.phone == d.phone) ==>
      RegisterError(us, d) == Some(Refuse(409, "PHONE_EXISTS"))
    ensures RegisterError(us, d) == Some(Refuse(409, "EMAIL_EXISTS")) <==>
      |d.password| >= 8 && (forall u :: u in us ==> u.phone != d.phone)
      && Truthy(d.email) && (exists u :: u in us && u.email == Some(d.email.value))
    ensures RegisterError(us, d) == None <==>
      && |d.password| >= 8
      && (forall u :: u in us ==> u.phone != d.phone)
      && (Truthy(d.email) ==> forall u :: u in us ==> u.email != Some(d.email.value))
      && (Truthy(d.username) ==> forall u :: u in us ==> u.username != Some(d.username.value))
  {
    var q := UserQuery(Str(d.phone), Undefined, Undefined);
    FindOneSpec(us, q);
    assert forall u :: QueryMatches(q, u) <==> u.phone == d.phone;
    if Truthy(d.email) { FirstSpec(us, (u: User) => HasEmail(d.email.value, u)); }
    if Truthy(d.username) { FirstSpec(us, (u: User) => HasUsername(d.username.value, u)); }
  }

  /** The record that `register` leaves in the store: created with defaults, then marked online and saved. */
  function RegisteredUser(id: string, d: Validation.RegisterData, passwordHash: string, now: Time): (u: User)
    ensures u.id == id && u.phone == d.phone && u.status == Online && u.failedLoginAttempts == 0
  {
    NewUser(id, UserModel.Defaults(d.phone, d.email, passwordHash, d.firstName, d.lastName, d.username), now)
      .(status := Online, updatedAt := now)
  }

  /**
   * `register`: on any failed check nothing is stored; otherwise one user and
   * one session (under the token's digest) are added and the user is online.
   */
  method Register(db: Db, d: Validation.RegisterData, svc: Services, userId: string, sessionId: string,
                  expiresAt: Time, client: Client, now: Time) returns (r: AuthReply)
    requires db.Valid()
    modifies db
    ensures db.Valid()
    ensures RegisterError(old(db.users.Values()), d).Some? ==>
      r == RegisterError(old(db.users.Values()), d).value
      && db.users == old(db.users) && db.sessions == old(db.sessions)
    ensures RegisterError(old(db.users.Values()), d).None? ==>
      var u := RegisteredUser(userId, d, svc.hashPassword(d.password), now);
      var token := svc.makeToken(userId, d.phone);
      r == Authenticated(201, u, token, expiresAt)
      && db.users == old(db.users).Set(userId, u)
      && db.sessions == old(db.sessions).Set(svc.hashToken(token),
           Session(sessionId, userId, svc.hashToken(token), client.deviceInfo, client.ipAddress,
                   expiresAt, now, None))
    ensures db.chats == old(db.chats) && db.messages == old(db.messages)
  {
    var err := RegisterError(db.AllUsers(), d);
    if err.Some? {
      return err.value;
    }
    var passwordHash := svc.hashPassword(d.password);
    var created := UserModel.Create(db, userId, d.phone, d.email, passwordHash, d.firstName, d.lastName,
                                    d.username, now);
    var token := svc.makeToken(created.id, created.phone);
    var tokenHash := svc.hashToken(token);
    var _ := db.CreateSession(sessionId, SessionData(created.id, tokenHash, client.deviceInfo,
                                                     client.ipAddress, expiresAt), now);
    var user := created.(status := Online);
    var _ := UserModel.Save(db, user, now);
    SetTwice(old(db.users), userId, created, user.(updatedAt := now));
    return Authenticated(201, user.(updatedAt := now), token, expiresAt);
  }

  // ---- login ----

  /** The login lookup: the identifier may be the phone, the username or the e-mail address. */
  predicate IdentifierMatches(identifier: string, u: User) {
    u.phone == identifier || u.username == Some(identifier) || u.email == Some(identifier)
  }

  function LoginCandidate(us: seq<User>, identifier: string): Option<User> {
    First(us, (u: User) => IdentifierMatches(identifier, u))
  }

  /** The for-of loop of `login`: the first user, in store order, that the identifier names. */
  method FindLoginUser(db: Db, identifier: string) returns (r: Option<User>)
    requires db.Valid()
    ensures r == LoginCandidate(db.users.Values(), identifier)
    ensures r.Some? ==> r.value.id in db.users.entries && db.users.entries[r.value.id] == r.value
  {
    var us := db.AllUsers();
    var i := 0;
    while i < |us|
      invariant 0 <= i <= |us|
      invariant LoginCandidate(us, identifier) == LoginCandidate(us[i..], identifier)
    {
      var u := us[i];
      FirstFrom(us, i, (u: User) => IdentifierMatches(identifier, u));
      if u.phone == identifier || u.username == Some(identifier) || u.email == Some(identifier) {
        assert u == db.users.entries[db.users.keys[i]];
        return Some(u);
      }
      i := i + 1;
    }
    assert us[i..] == [];
    return None;
  }

  /** The first matching user is returned; no match means nobody carries the identifier. */
  lemma LoginCandidateSpec(us: seq<User>, identifier: string)
    ensures LoginCandidate(us, identifier).Some? ==>
      var u := LoginCandidate(us, identifier).value;
      u in us && IdentifierMatches(identifier, u)
      && exists i :: 0 <= i < |us| && us[i] == u && forall j :: 0 <= j < i ==> !IdentifierMatches(identifier, us[j])
    ensures LoginCandidate(us, identifier).None? <==> forall u :: u in us ==> !IdentifierMatches(identifier, u)
  {
    FirstSpec(us, (u: User) => IdentifierMatches(identifier, u));
  }

  /** The steps of the lockout machine, as seen by the client. */
  datatype Attempt = AccountLocked | WrongPassword(attemptsLeft: int) | LockedOut | Accepted

  predicate IsLocked(u: User, now: Time) {
    u.accountLockedUntil.Some? && u.accountLockedUntil.value > now
  }

  /** One login attempt on user `u` at time `now`: the reply and the record before it is saved. */
  function Step(u: User, passwordOk: bool, now: Time): (Attempt, User)
  {
    if IsLocked(u, now) then (AccountLocked, u)
    else if !passwordOk then
      var n := u.failedLoginAttempts + 1;
      if n >= MAX_LOGIN_ATTEMPTS then
        (LockedOut, u.(failedLoginAttempts := n, accountLockedUntil := Some(now + ACCOUNT_LOCK_TIME)))
      else
        (WrongPassword(MAX_LOGIN_ATTEMPTS - n), u.(failedLoginAttempts := n))
    else
      (Accepted, u.(failedLoginAttempts := 0, accountLockedUntil := None, status := Online))
  }

  /** A locked account is refused without looking at the password, and the record is left alone. */
  lemma LockedIgnoresPassword(u: User, passwordOk: bool, now: Time)
    requires IsLocked(u, now)
    ensures Step(u, passwordOk, now) == (AccountLocked, u)
  {
  }

  /**
   * A wrong password on an unlocked account adds one failed attempt; reaching
   * the threshold locks the account for `ACCOUNT_LOCK_TIME`, otherwise the
   * reply reports the attempts left.
   */
  lemma WrongPasswordCounts(u: User, now: Time)
    requires !IsLocked(u, now)
    ensures Step(u, false, now).1.failedLoginAttempts == u.failedLoginAttempts + 1
    ensures Step(u, false, now).0 == LockedOut <==> u.failedLoginAttempts + 1 >= MAX_LOGIN_ATTEMPTS
    ensures Step(u, false, now).0 == LockedOut ==>
      Step(u, false, now).1.accountLockedUntil == Some(now + ACCOUNT_LOCK_TIME)
      && IsLocked(Step(u, false, now).1, now)
    ensures Step(u, false, now).0 != LockedOut ==>
      Step(u, false, now).0 == WrongPassword(MAX_LOGIN_ATTEMPTS - (u.failedLoginAttempts + 1))
      && Step(u, false, now).1.accountLockedUntil == u.accountLockedUntil
  {
  }

  /** A correct password on an unlocked account clears the counter and the lock and sets the user online. */
  lemma SuccessResets(u: User, now: Time)
    requires !IsLocked(u, now)
    ensures Step(u, true, now).0 == Accepted
    ensures Step(u, true, now).1.failedLoginAttempts == 0 && Step(u, true, now).1.accountLockedUntil.None?
    ensures Step(u, true, now).1.status == Online && !IsLocked(Step(u, true, now).1, now)
  {
  }

  /** `k` consecutive wrong passwords at the same instant. */
  function WrongAttempts(u: User, k: nat, now: Time): User
    decreases k
  {
    if k == 0 then u else Step(WrongAttempts(u, k - 1, now), false, now).1
  }

  /**
   * From a clean, unlocked record, the first four wrong passwords only count
   * and the fifth locks the account until `now + ACCOUNT_LOCK_TIME`.
   */
  lemma {:induction false} FiveStrikes(u: User, k: nat, now: Time)
    requires u.failedLoginAttempts == 0 && !IsLocked(u, now) && k <= MAX_LOGIN_ATTEMPTS
    ensures WrongAttempts(u, k, now).failedLoginAttempts == k
    ensures IsLocked(WrongAttempts(u, k, now), now) <==> k == MAX_LOGIN_ATTEMPTS
    ensures k == MAX_LOGIN_ATTEMPTS ==>
      WrongAttempts(u, k, now).accountLockedUntil == Some(now + ACCOUNT_LOCK_TIME)
    ensures 0 < k ==>
      Step(WrongAttempts(u, k - 1, now), false, now).0 ==
        (if k == MAX_LOGIN_ATTEMPTS then LockedOut else WrongPassword(MAX_LOGIN_ATTEMPTS - k))
  {
    if k > 0 {
      FiveStrikes(u, k - 1, now);
      WrongPasswordCounts(WrongAttempts(u, k - 1, now), now);
    }
  }

  /**
   * The counter is not reset when a lock runs out, so after an expired lock a
   * single wrong password locks the account again.
   */
  lemma RelockAfterExpiry(u: User, now: Time)
    requires u.failedLoginAttempts >= MAX_LOGIN_ATTEMPTS - 1 && !IsLocked(u, now)
    ensures Step(u, false, now).0 == LockedOut
  {
  }

  function AttemptReply(a: Attempt): AuthReply
    requires a != Accepted
  {
    match a
    case AccountLocked => Refuse(403, "ACCOUNT_LOCKED")
    case LockedOut => Refuse(403, "ACCOUNT_LOCKED")
    case WrongPassword(left) => Refused(401, "INVALID_CREDENTIALS", Some(left))
  }

  /**
   * `login`: no matching user is a 401 and changes nothing. Otherwise one
   * `Step` is taken: a locked account changes nothing, a wrong password saves
   * the new counter (and lock), and success adds a session and saves the
   * reset, online record.
   */
  method Login(db: Db, d: Validation.LoginData, svc: Services, sessionId: string,
               expiresAt: Time, client: Client, now: Time) returns (r: AuthReply)
    requires db.Valid()
    modifies db
    ensures db.Valid()
    ensures LoginCandidate(old(db.users.Values()), d.identifier).None? ==>
      r == Refuse(401, "INVALID_CREDENTIALS") && db.users == old(db.users) && db.sessions == old(db.sessions)
    ensures LoginCandidate(old(db.users.Values()), d.identifier).Some? ==>
      var u := LoginCandidate(old(db.users.Values()), d.identifier).value;
      var step := Step(u, svc.passwordMatches(d.password, u.passwordHash), now);
      var saved := step.1.(updatedAt := now);
      && (step.0 == AccountLocked ==>
            r == AttemptReply(step.0) && db.users == old(db.users) && db.sessions == old(db.sessions))
      && ((step.0.WrongPassword? || step.0.LockedOut?) ==>
            r == AttemptReply(step.0) && db.users == old(db.users).Set(u.id, saved)
            && db.sessions == old(db.sessions))
      && (step.0 == Accepted ==>
            var token := svc.makeToken(u.id, u.phone);
            r == Authenticated(200, saved, token, expiresAt)
            && db.users == old(db.users).Set(u.id, saved)
            && db.sessions == old(db.sessions).Set(svc.hashToken(token),
                 Session(sessionId, u.id, svc.hashToken(token), client.deviceInfo, client.ipAddress,
                         expiresAt, now, None)))
    ensures db.chats == old(db.chats) && db.messages == old(db.messages)
  {
    var found := FindLoginUser(db, d.identifier);
    if found.None? {
      return Refuse(401, "INVALID_CREDENTIALS");
    }
    var step := Step(found.value, svc.passwordMatches(d.password, found.value.passwordHash), now);
    var user := step.1;
    match step.0
    case AccountLocked =>
      return AttemptReply(step.0);
    case WrongPassword(_) =>
      var _ := UserModel.Save(db, user, now);
      return AttemptReply(step.0);
    case LockedOut =>
      var _ := UserModel.Save(db, user, now);
      return AttemptReply(step.0);
    case Accepted =>
      var token := svc.makeToken(user.id, user.phone);
      var tokenHash := svc.hashToken(token);
      var _ := db.CreateSession(sessionId, SessionData(user.id, tokenHash, client.deviceInfo,
                                                       client.ipAddress, expiresAt), now);
      var _ := UserModel.Save(db, user, now);
      return Authenticated(200, user.(updatedAt := now), token, expiresAt);
  }

  // ---- updateProfile ----

  datatype ProfileBody = ProfileBody(firstName: JsString, lastName: JsString, username: JsString, bio: JsString)

  datatype ProfileReply = Updated(user: User) | ProfileRefused(status: int, error: string)

  /** The length bounds, checked only on fields that are truthy. */
  function FieldError(b: ProfileBody): (r: Option<ProfileReply>)
    ensures r.None? <==>
      (Truthy(b.firstName) ==> |b.firstName.value| <= 64)
      && (Truthy(b.lastName) ==> |b.lastName.value| <= 64)
      && (Truthy(b.bio) ==> |b.bio.value| <= 70)
  {
    if Truthy(b.firstName) && (|b.firstName.value| < 1 || |b.firstName.value| > 64) then
      Some(ProfileRefused(400, "INVALID_FIRSTNAME"))
    else if Truthy(b.lastName) && |b.lastName.value| > 64 then Some(ProfileRefused(400, "INVALID_LASTNAME"))
    else if Truthy(b.bio) && |b.bio.value| > 70 then Some(ProfileRefused(400, "INVALID_BIO"))
    else None
  }

  /** The partial object: exactly the fields that are not `undefined`. */
  function ProfilePatch(b: ProfileBody): UserUpdate {
    Patch(b.firstName, b.lastName, b.username, b.bio, None, None, None)
  }

  /** The checks of `updateProfile` as written: the username lookup goes through `findOne({ username })`. */
  function ProfileErrorAsWritten(us: seq<User>, userId: string, b: ProfileBody): Option<ProfileReply>
  {
    if FieldError(b).Some? then FieldError(b)
    else if Truthy(b.username) then
      var existing := FirstUserMatching(us, UserQuery(Undefined, Undefined, b.username));
      if existing.Some? && existing.value.id != userId then Some(ProfileRefused(409, "USERNAME_EXISTS"))
      else None
    else None
  }

  /**
   * As written, the username check never fires: the lookup ignores the
   * `username` key, so a username another user holds is accepted.
   */
  lemma AsWrittenAcceptsTakenUsername(us: seq<User>, userId: string, b: ProfileBody, other: User)
    requires FieldError(b).None? && Truthy(b.username)
    requires other in us && other.id != userId && other.username == Some(b.username.value)
    ensures ProfileErrorAsWritten(us, userId, b) == None
  {
    FindOneIgnoresOtherKeys(us, UserQuery(Undefined, Undefined, b.username));
  }

  predicate HoldsUsernameOf(username: string, userId: string, u: User) {
    u.username == Some(username) && u.id != userId
  }

  /** The checks of `updateProfile` with the lookup it evidently intends: a user other than the caller holding the name. */
  function ProfileError(us: seq<User>, userId: string, b: ProfileBody): Option<ProfileReply>
  {
    if FieldError(b).Some? then FieldError(b)
    else if Truthy(b.username) && First(us, (u: User) => HoldsUsernameOf(b.username.value, userId, u)).Some? then
      Some(ProfileRefused(409, "USERNAME_EXISTS"))
    else None
  }

  /**
   * With the intended lookup, an update passes exactly when the bounds hold
   * and no other user holds the requested (truthy) username.
   */
  lemma ProfileErrorMeans(us: seq<User>, userId: string, b: ProfileBody)
    ensures ProfileError(us, userId, b).None? <==>
      FieldError(b).None?
      && (Truthy(b.username) ==> forall u :: u in us && u.id != userId ==> u.username != Some(b.username.value))
    ensures (FieldError(b).None? && Truthy(b.username)
             && exists u :: u in us && u.id != userId && u.username == Some(b.username.value))
      ==> ProfileError(us, userId, b) == Some(ProfileRefused(409, "USERNAME_EXISTS"))
  {
    if Truthy(b.username) {
      FirstSpec(us, (u: User) => HoldsUsernameOf(b.username.value, userId, u));
    }
  }

  /** The shared tail of `updateProfile`: merge the provided fields, then read the user back. */
  method ApplyProfile(db: Db, userId: string, b: ProfileBody, now: Time) returns (r: ProfileReply)
    requires db.Valid()
    modifies db
    ensures db.Valid()
    ensures userId in old(db.users.entries) ==>
      var u := Merge(old(db.users.entries[userId]), ProfilePatch(b), now);
      r == Updated(u) && db.users == old(db.users).Set(userId, u)
    ensures userId !in old(db.users.entries) ==> r == ProfileRefused(404, "USER_NOT_FOUND") && db.users == old(db.users)
    ensures db.sessions == old(db.sessions) && db.chats == old(db.chats) && db.messages == old(db.messages)
  {
    var _ := UserModel.FindByIdAndUpdate(db, userId, ProfilePatch(b), now);
    var updated := db.FindUserById(userId);
    if updated.None? {
      return ProfileRefused(404, "USER_NOT_FOUND");
    }
    return Updated(updated.value);
  }

  /** `updateProfile` as written (see `AsWrittenAcceptsTakenUsername`). */
  method UpdateProfile(db: Db, userId: string, b: ProfileBody, now: Time) returns (r: ProfileReply)
    requires db.Valid()
    modifies db
    ensures db.Valid()
    ensures ProfileErrorAsWritten(old(db.users.Values()), userId, b).Some? ==>
      r == ProfileErrorAsWritten(old(db.users.Values()), userId, b).value && db.users == old(db.users)
    ensures ProfileErrorAsWritten(old(db.users.Values()), userId, b).None? && userId in old(db.users.entries) ==>
      var u := Merge(old(db.users.entries[userId]), ProfilePatch(b), now);
      r == Updated(u) && db.users == old(db.users).Set(userId, u)
    ensures ProfileErrorAsWritten(old(db.users.Values()), userId, b).None? && userId !in old(db.users.entries) ==>
      r == ProfileRefused(404, "USER_NOT_FOUND") && db.users == old(db.users)
    ensures db.sessions == old(db.sessions) && db.chats == old(db.chats) && db.messages == old(db.messages)
  {
    var fieldError := FieldError(b);
    if fieldError.Some? {
      return fieldError.value;
    }
    if Truthy(b.username) {
      var existing := db.FindOneUser(UserQuery(Undefined, Undefined, b.username));
      if existing.Some? && existing.value.id != userId {
        return ProfileRefused(409, "USERNAME_EXISTS");
      }
    }
    r := ApplyProfile(db, userId, b, now);
  }

  /** `updateProfile` with the intended username check. */
  method UpdateProfileCorrected(db: Db, userId: string, b: ProfileBody, now: Time) returns (r: ProfileReply)
    requires db.Valid()
    modifies db
    ensures db.Valid()
    ensures ProfileError(old(db.users.Values()), userId, b).Some? ==>
      r == ProfileError(old(db.users.Values()), userId, b).value && db.users == old(db.users)
    ensures ProfileError(old(db.users.Values()), userId, b).None? && userId in old(db.users.entries) ==>
      var u := Merge(old(db.users.entries[userId]), ProfilePatch(b), now);
      r == Updated(u) && db.users == old(db.users).Set(userId, u)
    ensures ProfileError(old(db.users.Values()), userId, b).None? && userId !in old(db.users.entries) ==>
      r == ProfileRefused(404, "USER_NOT_FOUND") && db.users == old(db.users)
    ensures db.sessions == old(db.sessions) && db.chats == old(db.chats) && db.messages == old(db.messages)
  {
    var fieldError := FieldError(b);
    if fieldError.Some? {
      return fieldError.value;
    }
    if Truthy(b.username) {
      var existing := First(db.AllUsers(), (u: User) => HoldsUsernameOf(b.username.value, userId, u));
      if existing.Some? {
        return ProfileRefused(409, "USERNAME_EXISTS");
      }
    }
    r := ApplyProfile(db, userId, b, now);
  }

  // ---- searchUsers ----

  /** The public fields of a user that search results carry. */
  datatype UserSummary = UserSummary(userId: string, phone: string, firstName: Option<string>,
                                     lastName: Option<string>, username: Option<string>,
                                     profilePhoto: Option<string>, status: Presence)

  function Summary(u: User): UserSummary {
    UserSummary(u.id, u.phone, u.firstName, u.lastName, u.username, u.profilePhotoUrl, u.status)
  }

  function NotCaller(callerId: string): (p: User -> bool)
    ensures forall u :: p(u) == (u.id != callerId)
  {
    (u: User) => u.id != callerId
  }

  /** `searchUsers`: a query of at least 3 characters, then the model's search without the caller. */
  function SearchUsers(db: Db, query: JsString, callerId: string): Result<seq<UserSummary>, string>
    requires db.Valid()
    reads db
  {
    if !Truthy(query) || |query.value| < 3 then Err("INVALID_QUERY")
    else Ok(Map(Filter(UserModel.Search(db, query.value), NotCaller(callerId)), Summary))
  }

  /**
   * Short or missing queries are refused; otherwise the results are exactly
   * the summaries of the matching users other than the caller, in the order
   * the store holds them.
   */
  lemma SearchUsersSpec(db: Db, query: JsString, callerId: string)
    requires db.Valid()
    ensures SearchUsers(db, query, callerId).Ok? <==> Truthy(query) && |query.value| >= 3
    ensures SearchUsers(db, query, callerId).Ok? ==>
      (forall s :: s in SearchUsers(db, query, callerId).value ==> s.userId != callerId)
      && (forall u :: u in db.users.entries.Values && u.id != callerId && UserModel.SearchMatches(query.value, u) ==>
            Summary(u) in SearchUsers(db, query, callerId).value)
      && SearchUsers(db, query, callerId).value
         == Map(Filter(db.AllUsers(), (u: User) => u.id != callerId && UserModel.SearchMatches(query.value, u)), Summary)
  {
    if Truthy(query) && |query.value| >= 3 {
      FilterFilter(db.AllUsers(), UserModel.SearchFilter(query.value), NotCaller(callerId),
                   (u: User) => u.id != callerId && UserModel.SearchMatches(query.value, u));
      var found := UserModel.Search(db, query.value);
      var kept := Filter(found, NotCaller(callerId));
      var r := Map(kept, Summary);
      forall s | s in r ensures s.userId != callerId {
        var i :| 0 <= i < |r| && r[i] == s;
        assert kept[i] in kept;
      }
      forall u | u in db.users.entries.Values && u.id != callerId && UserModel.SearchMatches(query.value, u)
        ensures Summary(u) in r
      {
        UserModel.SearchExact(db, query.value, u);
        FilterMembership(found, NotCaller(callerId), u);
        var i :| 0 <= i < |kept| && kept[i] == u;
        assert r[i] == Summary(u);
      }
    }
  }
}
