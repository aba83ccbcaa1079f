/**
 * The state logic of the group form on the settings page,
 * frontend/src/pages/Settings.jsx: the member selection (no cap), the
 * validation and trimming in front of the `POST /chats/group` request, the
 * reset after a created group, and when a typed query is searched.
 */
module SettingsPage {
  import opened Wrappers
  import opened Seqs
  import opened Text
  import opened BrowserStorage
  import opened UserLists

  const MIN_QUERY := 2

  /** The form's state. */
  datatype Form = Form(showCreateGroup: bool, groupName: string, groupDescription: string,
                       selectedUsers: seq<ClientUser>, searchQuery: string, searchResults: seq<ClientUser>)

  /** `toggleUserSelection(user)`: `find` by id, then remove it or append the user. */
  function ToggleUser(selected: seq<ClientUser>, user: ClientUser): seq<ClientUser> {
    if First(selected, IsUser(user.userId)).Some? then WithoutUser(selected, user.userId)
    else selected + [user]
  }

  /**
   * A selected id is removed, every entry of it; an unselected user is
   * appended whatever the size of the selection. Unique ids stay unique.
   */
  lemma ToggleUserSpec(selected: seq<ClientUser>, user: ClientUser)
    ensures HasUser(selected, user.userId) ==>
      ToggleUser(selected, user) == WithoutUser(selected, user.userId) && !HasUser(ToggleUser(selected, user), user.userId)
    ensures !HasUser(selected, user.userId) ==> ToggleUser(selected, user) == selected + [user]
    ensures UniqueIds(selected) ==> UniqueIds(ToggleUser(selected, user))
  {
    FirstSpec(selected, IsUser(user.userId));
    WithoutUserSpec(selected, user.userId, user);
    var r := ToggleUser(selected, user);
    if UniqueIds(selected) && !HasUser(selected, user.userId) {
      forall i, j | 0 <= i < j < |r| ensures r[i].userId != r[j].userId {
        if j == |selected| {
          assert selected[i] in selected;
        }
      }
    }
  }

  /** Toggling an unselected user twice gives back the selection it started from. */
  lemma {:induction false} ToggleTwice(selected: seq<ClientUser>, user: ClientUser)
    requires !HasUser(selected, user.userId)
    ensures ToggleUser(ToggleUser(selected, user), user) == selected
  {
    ToggleUserSpec(selected, user);
    var once := selected + [user];
    assert user in once;
    ToggleUserSpec(once, user);
    FilterAppend(selected, [user], NotUser(user.userId));
    FilterAll(selected, NotUser(user.userId));
    assert Filter([user], NotUser(user.userId)) == [];
  }

  /** Why `handleCreateGroup` made no request. */
  datatype Refusal = NoName | NoMembers

  /** The `groupService.createGroup` call: trimmed name and description, and the ids in selection order. */
  datatype GroupRequest = GroupRequest(name: string, description: string, memberIds: seq<string>)

  /** What `handleCreateGroup` does first: refuse with a toast, or send a request. */
  datatype CreateStep = Refused(why: Refusal) | Sends(request: GroupRequest)

  /** The guard and the request of `handleCreateGroup`. */
  function CreateRequest(f: Form): CreateStep {
    if Trim(f.groupName) == "" then Refused(NoName)
    else if |f.selectedUsers| == 0 then Refused(NoMembers)
    else Sends(GroupRequest(Trim(f.groupName), Trim(f.groupDescription), Ids(f.selectedUsers)))
  }

  /**
   * No request for a blank name or an empty selection; otherwise the request
   * carries a name with no surrounding whitespace taken from the typed one,
   * the trimmed description and every selected id in order.
   */
  lemma CreateRequestSpec(f: Form)
    ensures CreateRequest(f).Refused? <==> AllWhitespace(f.groupName) || f.selectedUsers == []
    ensures AllWhitespace(f.groupName) ==> CreateRequest(f) == Refused(NoName)
    ensures CreateRequest(f).Sends? ==>
      var q := CreateRequest(f).request;
      && q.name != "" && !IsJsWhitespace(q.name[0]) && !IsJsWhitespace(q.name[|q.name| - 1])
      && (exists a, b :: 0 <= a <= b <= |f.groupName| && q.name == f.groupName[a..b])
      && q.description == Trim(f.groupDescription)
      && |q.memberIds| == |f.selectedUsers|
      && (forall i :: 0 <= i < |f.selectedUsers| ==> q.memberIds[i] == f.selectedUsers[i].userId)
  {
    TrimEmpty(f.groupName);
    TrimIsInfix(f.groupName);
    TrimEnds(f.groupName);
  }

  lemma TrimEnds(s: string)
    ensures Trim(s) == "" || (!IsJsWhitespace(Trim(s)[0]) && !IsJsWhitespace(Trim(s)[|Trim(s)| - 1]))
  {
    var t := TrimStart(s);
    var r := TrimEnd(t);
    assert Trim(s) == r;
    if r != [] {
      assert r == t[..|r|] && r[0] == t[0];
    }
  }

  /** The form after a created group: closed, with every field, the selection and the results emptied. */
  function Reset(f: Form): (r: Form)
    ensures !r.showCreateGroup && r.groupName == "" && r.groupDescription == ""
    ensures r.selectedUsers == [] && r.searchQuery == "" && r.searchResults == []
  {
    Form(false, "", "", [], "", [])
  }

  /** The response to the request: the chat id to navigate to on success, an error otherwise. */
  datatype Outcome = Outcome(form: Form, navigateTo: Option<string>)

  /** After the request: a created group resets the form and opens its chat; a failure leaves the form as it was. */
  function AfterCreate(f: Form, response: Response<string>): (r: Outcome)
    ensures response.Ok? ==> r == Outcome(Reset(f), Some(response.data))
    ensures response.Error? ==> r == Outcome(f, None)
  {
    match response
    case Ok(chatId) => Outcome(Reset(f), Some(chatId))
    case Error(_, _) => Outcome(f, None)
  }

  /** What `searchUsers` answered: `response.data.users`, possibly missing. */
  datatype UsersData = UsersData(users: Option<seq<ClientUser>>)

  /**
   * `handleSearch(query)`: the query is stored; a query shorter than two
   * characters clears the results without a request, a successful search
   * shows the server's users (none if missing), and a failed one is only
   * logged, leaving the previous results.
   */
  function Search(f: Form, query: string, response: Response<UsersData>): (r: Form)
    ensures r.searchQuery == query
    ensures |query| < MIN_QUERY ==> r.searchResults == []
    ensures |query| >= MIN_QUERY && response.Ok? ==> r.searchResults == response.data.users.GetOr([])
    ensures |query| >= MIN_QUERY && response.Error? ==> r.searchResults == f.searchResults
    ensures r.(searchQuery := f.searchQuery, searchResults := f.searchResults) == f
  {
    if |query| < MIN_QUERY then f.(searchQuery := query, searchResults := [])
    else match response
      case Ok(d) => f.(searchQuery := query, searchResults := d.users.GetOr([]))
      case Error(_, _) => f.(searchQuery := query)
  }
}
