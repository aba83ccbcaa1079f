/**
 * The state logic of the search page, frontend/src/pages/Search.jsx: the
 * recent-search list (most recent first, at most ten users, one entry per
 * user) and the rule deciding when a typed query is searched. The list's
 * copy in `localStorage` always equals the new list and is not modelled.
 */
module SearchPage {
  import opened Wrappers
  import opened Seqs
  import opened JsValues
  import opened BrowserStorage
  import opened UserLists
  import MockDatabase
  import AuthController

  const RECENT_LIMIT := 10
  const MIN_QUERY := 3

  /** `handleUserClick(user)`: the user moves to the front, once, and the list is cut to ten. */
  function AfterClick(recent: seq<ClientUser>, user: ClientUser): seq<ClientUser> {
    SliceTo([user] + WithoutUser(recent, user.userId), RECENT_LIMIT)
  }

  /**
   * After a click the list starts with the clicked user, holds its id exactly
   * once, has at most ten entries, and continues with the other recent users
   * in their previous order; unique ids stay unique.
   */
  lemma AfterClickSpec(recent: seq<ClientUser>, user: ClientUser)
    ensures var r := AfterClick(recent, user);
      && |r| == (if 1 + |WithoutUser(recent, user.userId)| < RECENT_LIMIT then 1 + |WithoutUser(recent, user.userId)|
                 else RECENT_LIMIT)
      && r[0] == user
      && (forall i :: 0 < i < |r| ==> r[i].userId != user.userId)
      && r[1..] <= WithoutUser(recent, user.userId)
      && Embeds(WithoutUser(recent, user.userId), recent)
      && (UniqueIds(recent) ==> UniqueIds(r))
  {
    var others := WithoutUser(recent, user.userId);
    var r := AfterClick(recent, user);
    assert ([user] + others)[1..] == others;
    assert r[1..] <= others;
    forall i | 0 < i < |r| ensures r[i].userId != user.userId {
      assert r[i] == others[i - 1] && others[i - 1] in others;
    }
    WithoutUserSpec(recent, user.userId, user);
    if UniqueIds(recent) {
      forall i, j | 0 <= i < j < |r| ensures r[i].userId != r[j].userId {
        if i > 0 {
          assert r[i] == others[i - 1] && r[j] == others[j - 1];
        }
      }
    }
  }

  /** `removeRecentSearch(userId)` */
  function RemoveRecent(recent: seq<ClientUser>, userId: string): (r: seq<ClientUser>)
    ensures !HasUser(r, userId)
    ensures forall u :: u in r <==> u in recent && u.userId != userId
    ensures Embeds(r, recent)
  {
    var r := WithoutUser(recent, userId);
    assert forall u :: u in r <==> u in recent && u.userId != userId by {
      forall u ensures u in r <==> u in recent && u.userId != userId {
        WithoutUserSpec(recent, userId, u);
      }
    }
    WithoutUserSpec(recent, userId, ClientUser(userId, "", None, None, None, None, None, None, "", None));
    r
  }

  /** `clearRecentSearches()` */
  function ClearRecent(recent: seq<ClientUser>): (r: seq<ClientUser>)
    ensures r == []
  {
    []
  }

  /** What `searchUsers` answered: `response.data.users`, possibly missing. */
  datatype UsersData = UsersData(users: Option<seq<ClientUser>>)

  /** Whether a query is sent: three characters or more. */
  predicate Searches(query: string) {
    |query| >= MIN_QUERY
  }

  /**
   * The results shown once a typed query has been handled: cleared for a
   * short query; otherwise the server's users (none if missing), or none
   * after an error.
   */
  function ResultsAfter(query: string, response: Response<UsersData>): (r: seq<ClientUser>)
    ensures !Searches(query) ==> r == []
    ensures Searches(query) && response.Ok? ==> r == response.data.users.GetOr([])
    ensures response.Error? ==> r == []
  {
    if !Searches(query) then []
    else match response
      case Ok(d) => d.users.GetOr([])
      case Error(_, _) => []
  }

  /**
   * The page sends exactly the queries the backend's user search accepts
   * (three characters or more), so a refused query never reaches it.
   */
  lemma SearchesWhatBackendAccepts(db: MockDatabase.Db, query: string, callerId: string)
    requires db.Valid()
    ensures Searches(query) <==> AuthController.SearchUsers(db, Str(query), callerId).Ok?
  {
    AuthController.SearchUsersSpec(db, Str(query), callerId);
  }
}
