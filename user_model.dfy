/**
 * The `User` model of backend/src/models/User.js: creation defaults, write-back
 * and partial update through the mock database, and the substring search.
 */
module UserModel {
  import opened Wrappers
  import opened Seqs
  import opened Text
  import opened JsValues
  import opened MockDatabase

  /** The record `User.create` hands to the database: nullable fields default to null. */
  function Defaults(phone: string, email: JsString, passwordHash: string, firstName: string,
                    lastName: JsString, username: JsString): (d: UserData)
    ensures d.phone == phone && d.passwordHash == passwordHash && d.firstName == Some(firstName)
    ensures d.email == OrNull(email) && d.lastName == OrNull(lastName) && d.username == OrNull(username)
    ensures d.status == Offline && d.failedLoginAttempts == 0
    ensures d.bio.None? && d.profilePhotoUrl.None? && d.lastSeen.None? && d.accountLockedUntil.None?
  {
    UserData(phone, OrNull(email), passwordHash, Some(firstName), OrNull(lastName), OrNull(username),
             None, None, Offline, None, 0, None)
  }

  /** `User.create`: a new offline user with no failed logins, no lock and no bio, photo or last-seen time. */
  method Create(db: Db, id: string, phone: string, email: JsString, passwordHash: string,
                firstName: string, lastName: JsString, username: JsString, now: Time)
    returns (u: User)
    requires db.Valid()
    modifies db
    ensures db.Valid()
    ensures u == NewUser(id, Defaults(phone, email, passwordHash, firstName, lastName, username), now)
    ensures u.status == Offline && u.failedLoginAttempts == 0 && u.accountLockedUntil.None?
    ensures u.bio.None? && u.profilePhotoUrl.None? && u.lastSeen.None?
    ensures db.users == old(db.users).Set(id, u)
    ensures db.sessions == old(db.sessions) && db.chats == old(db.chats) && db.messages == old(db.messages)
    ensures db.FindUserById(id) == Some(u)
  {
    u := db.CreateUser(id, Defaults(phone, email, passwordHash, firstName, lastName, username), now);
  }

  /** `User.save(user)`: the whole record is written back under its own id, with a new `updatedAt`. */
  method Save(db: Db, user: User, now: Time) returns (r: Option<User>)
    requires db.Valid()
    modifies db
    ensures db.Valid()
    ensures user.id in old(db.users.entries) ==>
      r == Some(user.(updatedAt := now)) && db.users == old(db.users).Set(user.id, user.(updatedAt := now))
    ensures user.id !in old(db.users.entries) ==> r == None && db.users == old(db.users)
    ensures db.sessions == old(db.sessions) && db.chats == old(db.chats) && db.messages == old(db.messages)
  {
    r := db.UpdateUser(user.id, Whole(user), now);
  }

  /** `User.findByIdAndUpdate(id, updates)`: only the fields the partial object carries change. */
  method FindByIdAndUpdate(db: Db, id: string, updates: UserUpdate, now: Time) returns (r: Option<User>)
    requires db.Valid() && updates.Patch?
    modifies db
    ensures db.Valid()
    ensures id in old(db.users.entries) ==>
      r == Some(Merge(old(db.users.entries[id]), updates, now)) && db.users == old(db.users).Set(id, r.value)
    ensures id !in old(db.users.entries) ==> r == None && db.users == old(db.users)
    ensures db.sessions == old(db.sessions) && db.chats == old(db.chats) && db.messages == old(db.messages)
  {
    r := db.UpdateUser(id, updates, now);
  }

  /** The filter of `User.search`: phone case-sensitively, names and username ignoring ASCII case. */
  predicate SearchMatches(query: string, u: User) {
    var q := ToLower(query);
    (u.phone != "" && Includes(u.phone, query))
    || (u.firstName.Some? && u.firstName.value != "" && Includes(ToLower(u.firstName.value), q))
    || (u.lastName.Some? && u.lastName.value != "" && Includes(ToLower(u.lastName.value), q))
    || (u.username.Some? && u.username.value != "" && Includes(ToLower(u.username.value), q))
  }

  function SearchFilter(query: string): (p: User -> bool)
    ensures forall u :: p(u) == SearchMatches(query, u)
  {
    (u: User) => SearchMatches(query, u)
  }

  /** `User.search(query)` over the stored users, in insertion order. */
  function Search(db: Db, query: string): seq<User>
    requires db.Valid()
    reads db
  {
    Filter(db.AllUsers(), SearchFilter(query))
  }

  /** `search` returns exactly the stored users that match; nothing is added or changed. */
  lemma SearchExact(db: Db, query: string, u: User)
    requires db.Valid()
    ensures u in Search(db, query) <==> u in db.users.entries.Values && SearchMatches(query, u)
  {
    FilterMembership(db.AllUsers(), SearchFilter(query), u);
  }

  /** The result holds no user more often than the store does. */
  lemma SearchSubMultiset(db: Db, query: string)
    requires db.Valid()
    ensures multiset(Search(db, query)) <= multiset(db.AllUsers())
  {
    FilterSubMultiset(db.AllUsers(), SearchFilter(query));
  }

  /** The phone test is case-sensitive: a phone matches when it contains the query as written. */
  lemma SearchPhone(query: string, u: User)
    requires u.phone != "" && Includes(u.phone, query)
    ensures SearchMatches(query, u)
  {
  }

  /** The name and username tests compare lower-cased text, so queries differing only in ASCII case agree on them. */
  lemma SearchNameCaseInsensitive(q1: string, q2: string, u: User)
    requires ToLower(q1) == ToLower(q2)
    requires !Includes(u.phone, q1) && !Includes(u.phone, q2)
    ensures SearchMatches(q1, u) <==> SearchMatches(q2, u)
  {
  }

  /** The e-mail address is not a search field. */
  lemma SearchIgnoresEmail(query: string, u: User, email: Option<string>)
    ensures SearchMatches(query, u) <==> SearchMatches(query, u.(email := email))
  {
  }
}
