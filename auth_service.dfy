/**
 * The client auth service of frontend/src/services/authService.js: the token
 * and user in `localStorage`, and an offline user cache keyed by phone that
 * lets `register` and `login` work when the backend is unreachable or answers
 * with a 5xx status. `Date.now()` is the parameter `now`.
 */
module AuthService {
  import opened Wrappers
  import opened Text
  import opened JsValues
  import opened OrderedMaps
  import opened BrowserStorage

  /** `_cacheUser(user)`: the cache entry for the user's phone becomes `user`. */
  method CacheUser(storage: LocalStorage, user: ClientUser)
    requires storage.Valid()
    modifies storage
    ensures storage.Valid()
    ensures storage.cachedUsers == old(storage.cachedUsers).Set(user.phone, user)
    ensures storage.token == old(storage.token) && storage.user == old(storage.user)
    ensures storage.cachedChats == old(storage.cachedChats) && storage.cachedMessages == old(storage.cachedMessages)
  {
    storage.cachedUsers := storage.cachedUsers.Set(user.phone, user);
  }

  /** Caching replaces the entry for that phone only; a later lookup of the phone finds the new user. */
  lemma CacheUserSpec(users: OrderedMap<string, ClientUser>, user: ClientUser, phone: string)
    requires users.Valid()
    ensures users.Set(user.phone, user).Get(user.phone) == Some(user)
    ensures phone != user.phone ==> users.Set(user.phone, user).Get(phone) == users.Get(phone)
    ensures |users.Set(user.phone, user).entries| == |users.entries| + (if user.phone in users.entries then 0 else 1)
  {
  }

  /** `_getCachedUser(phone)`: the entry for the phone, or null. */
  function CachedUser(storage: LocalStorage, phone: string): (r: Option<ClientUser>)
    reads storage
    ensures r.Some? <==> phone in storage.cachedUsers.entries
    ensures r.Some? ==> r.value == storage.cachedUsers.entries[phone]
  {
    storage.cachedUsers.Get(phone)
  }

  /** The form `register` posts. */
  datatype RegisterForm = RegisterForm(phone: string, email: JsString, password: string, firstName: Option<string>,
                                       lastName: JsString, username: JsString)

  /** The data of a successful register or login: a token (possibly absent) and the user. */
  datatype AuthData = AuthData(token: Option<string>, user: ClientUser)

  const PHONE_TAKEN := "Bu telefon raqami allaqachon ro'yxatdan o'tgan"
  const BAD_CREDENTIALS := "Username, telefon yoki parol noto'g'ri"

  /** The user `register` makes up offline: online, with the password kept for the offline login. */
  function LocalUser(d: RegisterForm, now: nat): (u: ClientUser)
    ensures u.phone == d.phone && u.status == "online" && u.password == Some(d.password)
    ensures u.email == OrNull(d.email) && u.lastName == OrNull(d.lastName) && u.username == OrNull(d.username)
    ensures u.bio.None? && u.profilePhoto.None?
  {
    ClientUser(NatToString(now), d.phone, OrNull(d.email), d.firstName, OrNull(d.lastName), OrNull(d.username),
               None, None, "online", Some(d.password))
  }

  /** The session fields a successful register or login stores. */
  predicate SignedIn(storage: LocalStorage, token: string, user: ClientUser)
    reads storage
  {
    storage.token == Some(token) && storage.user == Some(user)
  }

  /**
   * `register(data)`. Online: a reply with a token stores the token and
   * user and caches the user with the form's password. Offline: a phone
   * already cached is refused; otherwise a new online user is stored, cached
   * and returned with a `local_` token. Other errors are rethrown.
   */
  method Register(storage: LocalStorage, d: RegisterForm, response: Response<AuthData>, now: nat)
    returns (r: Completion<AuthData>)
    requires storage.Valid()
    modifies storage
    ensures storage.Valid()
    ensures response.Ok? ==> r == Value(response.data)
    ensures response.Ok? && response.data.token.Some? && response.data.token.value != "" ==>
      var cached := response.data.user.(password := Some(d.password));
      SignedIn(storage, response.data.token.value, response.data.user)
      && storage.cachedUsers == old(storage.cachedUsers).Set(cached.phone, cached)
    ensures Unavailable(response) && d.phone in old(storage.cachedUsers.entries) ==> r == Raised(PHONE_TAKEN)
    ensures Unavailable(response) && d.phone !in old(storage.cachedUsers.entries) ==>
      r == Value(AuthData(Some(LocalId(now)), LocalUser(d, now)))
      && SignedIn(storage, LocalId(now), LocalUser(d, now))
      && storage.cachedUsers == old(storage.cachedUsers).Set(d.phone, LocalUser(d, now))
    ensures response.Error? && !Unavailable(response) ==> r == Rethrown(response.code, response.status)
    ensures r.Value? || unchanged(storage)
    ensures storage.cachedChats == old(storage.cachedChats) && storage.cachedMessages == old(storage.cachedMessages)
  {
    if response.Ok? {
      var data := response.data;
      if data.token.Some? && data.token.value != "" {
        storage.token := data.token;
        storage.user := Some(data.user);
        CacheUser(storage, data.user.(password := Some(d.password)));
      }
      return Value(data);
    }
    if Unavailable(response) {
      var existing := CachedUser(storage, d.phone);
      if existing.Some? {
        return Raised(PHONE_TAKEN);
      }
      var user := LocalUser(d, now);
      var token := LocalId(now);
      storage.token := Some(token);
      storage.user := Some(user);
      CacheUser(storage, user);
      return Value(AuthData(Some(token), user));
    }
    return Rethrown(response.code, response.status);
  }

  datatype LoginForm = LoginForm(identifier: string, password: string)

  /** The offline login check: the cache entry under the identifier (looked up as a phone) with the same password. */
  function OfflineLogin(users: OrderedMap<string, ClientUser>, d: LoginForm): Option<ClientUser> {
    match users.Get(d.identifier)
    case None => None
    case Some(u) => if u.password == Some(d.password) then Some(u) else None
  }

  /**
   * The offline login succeeds exactly when a user is cached under the
   * identifier and its stored password is the one given; a username is
   * never found, since the cache is keyed by phone.
   */
  lemma OfflineLoginSpec(users: OrderedMap<string, ClientUser>, d: LoginForm)
    requires users.Valid()
    requires forall k :: k in users.entries ==> users.entries[k].phone == k
    ensures OfflineLogin(users, d).Some? <==>
      d.identifier in users.entries && users.entries[d.identifier].password == Some(d.password)
    ensures OfflineLogin(users, d).Some? ==>
      OfflineLogin(users, d).value.phone == d.identifier && OfflineLogin(users, d).value in users.entries.Values
  {
  }

  /**
   * `login(data)`. Online: a reply with a token stores the token and user.
   * Offline: the cached user for the identifier, with a matching password,
   * is stored with a `local_` token; anything else is refused with one
   * message for both causes. Other errors are rethrown.
   */
  method Login(storage: LocalStorage, d: LoginForm, response: Response<AuthData>, now: nat)
    returns (r: Completion<AuthData>)
    requires storage.Valid()
    modifies storage
    ensures storage.Valid()
    ensures response.Ok? ==> r == Value(response.data)
    ensures response.Ok? && response.data.token.Some? && response.data.token.value != "" ==>
      SignedIn(storage, response.data.token.value, response.data.user)
    ensures Unavailable(response) ==>
      match OfflineLogin(old(storage.cachedUsers), d)
      case None => r == Raised(BAD_CREDENTIALS)
      case Some(u) => r == Value(AuthData(Some(LocalId(now)), u)) && SignedIn(storage, LocalId(now), u)
    ensures response.Error? && !Unavailable(response) ==> r == Rethrown(response.code, response.status)
    ensures r.Value? || unchanged(storage)
    ensures storage.cachedUsers == old(storage.cachedUsers)
    ensures storage.cachedChats == old(storage.cachedChats) && storage.cachedMessages == old(storage.cachedMessages)
  {
    if response.Ok? {
      var data := response.data;
      if data.token.Some? && data.token.value != "" {
        storage.token := data.token;
        storage.user := Some(data.user);
      }
      return Value(data);
    }
    if Unavailable(response) {
      var cached := CachedUser(storage, d.identifier);
      if cached.None? {
        return Raised(BAD_CREDENTIALS);
      }
      if cached.value.password != Some(d.password) {
        return Raised(BAD_CREDENTIALS);
      }
      var token := LocalId(now);
      storage.token := Some(token);
      storage.user := cached;
      return Value(AuthData(Some(token), cached.value));
    }
    return Rethrown(response.code, response.status);
  }

  /** `logout()`: the API error, if any, propagates, but the token and user are removed either way. */
  method Logout(storage: LocalStorage, response: Response<()>) returns (r: Completion<()>)
    modifies storage
    ensures storage.token == None && storage.user == None
    ensures response.Ok? ==> r == Value(())
    ensures response.Error? ==> r == Rethrown(response.code, response.status)
    ensures storage.cachedUsers == old(storage.cachedUsers)
    ensures storage.cachedChats == old(storage.cachedChats) && storage.cachedMessages == old(storage.cachedMessages)
  {
    storage.token := None;
    storage.user := None;
    if response.Ok? {
      return Value(());
    }
    return Rethrown(response.code, response.status);
  }

  /** `isAuthenticated()`: `!!getToken()`. */
  function IsAuthenticated(storage: LocalStorage): (r: bool)
    reads storage
    ensures r <==> storage.token.Some? && storage.token.value != ""
  {
    match storage.token
    case None => false
    case Some(t) => t != ""
  }

  /** A sign-in with a non-empty token, such as an offline one, leaves the client authenticated. */
  lemma SignedInIsAuthenticated(storage: LocalStorage, token: string, user: ClientUser)
    requires SignedIn(storage, token, user) && |token| > 6 && token[..6] == "local_"
    ensures IsAuthenticated(storage)
  {
  }
}
