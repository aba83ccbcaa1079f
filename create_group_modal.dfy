/**
 * The state logic of the group-creation dialog,
 * frontend/src/components/CreateGroupModal.jsx: the member selection with its
 * cap of 199, the guard in front of the `createGroup` request, the reset on
 * closing, and when a typed query is searched. Toasts are the `refused`
 * flags and the `Refusal` values.
 */
module CreateGroupModal {
  import opened Wrappers
  import opened Seqs
  import opened Text
  import opened JsValues
  import opened BrowserStorage
  import opened UserLists
  import ChatService
  import MockDatabase
  import AuthController

  const MAX_SELECTED := 199
  const MIN_QUERY := 2

  /** The dialog's state. */
  datatype Form = Form(groupName: string, searchQuery: string, searchResults: seq<ClientUser>,
                       selectedMembers: seq<ClientUser>)

  /** The new selection, and whether the "at most 199" toast was shown instead. */
  datatype Toggle = Toggle(selection: seq<ClientUser>, refused: bool)

  /** `toggleMember(user)` */
  function ToggleMember(selected: seq<ClientUser>, user: ClientUser): Toggle {
    if HasUser(selected, user.userId) then Toggle(WithoutUser(selected, user.userId), false)
    else if |selected| >= MAX_SELECTED then Toggle(selected, true)
    else Toggle(selected + [user], false)
  }

  /** A selection the dialog can reach: distinct ids and at most 199 members. */
  ghost predicate SelectionOk(selected: seq<ClientUser>) {
    UniqueIds(selected) && |selected| <= MAX_SELECTED
  }

  /**
   * A selected user is removed (every entry with its id); an unselected one
   * is appended while fewer than 199 are selected, and is otherwise refused
   * with the selection untouched. The reachable selections stay reachable.
   */
  lemma ToggleMemberSpec(selected: seq<ClientUser>, user: ClientUser)
    ensures var t := ToggleMember(selected, user);
      && (HasUser(selected, user.userId) ==>
            !t.refused && !HasUser(t.selection, user.userId) && Embeds(t.selection, selected))
      && (!HasUser(selected, user.userId) && |selected| < MAX_SELECTED ==> t == Toggle(selected + [user], false))
      && (!HasUser(selected, user.userId) && |selected| >= MAX_SELECTED ==> t == Toggle(selected, true))
      && (SelectionOk(selected) ==> SelectionOk(t.selection))
  {
    WithoutUserSpec(selected, user.userId, user);
    var t := ToggleMember(selected, user);
    if SelectionOk(selected) && !HasUser(selected, user.userId) && |selected| < MAX_SELECTED {
      forall i, j | 0 <= i < j < |t.selection| ensures t.selection[i].userId != t.selection[j].userId {
        if j == |selected| {
          assert selected[i] in selected;
        }
      }
    }
  }

  /** Why `handleCreateGroup` made no request. */
  datatype Refusal = NoName | NoMembers

  /** The `createGroup` call the dialog makes: the name as typed, not trimmed, and the ids in selection order. */
  datatype GroupRequest = GroupRequest(name: string, memberIds: seq<string>)

  /** What `handleCreateGroup` does first: refuse with a toast, or send a request. */
  datatype CreateStep = Refused(why: Refusal) | Sends(request: GroupRequest)

  /** The guard and the request of `handleCreateGroup`. */
  function CreateRequest(f: Form): CreateStep {
    if Trim(f.groupName) == "" then Refused(NoName)
    else if f.selectedMembers == [] then Refused(NoMembers)
    else Sends(GroupRequest(f.groupName, Ids(f.selectedMembers)))
  }

  /**
   * No request is made for a blank name or an empty selection; otherwise the
   * request carries the untrimmed name and every selected id in order.
   */
  lemma CreateRequestSpec(f: Form)
    ensures CreateRequest(f).Refused? <==> AllWhitespace(f.groupName) || f.selectedMembers == []
    ensures AllWhitespace(f.groupName) ==> CreateRequest(f) == Refused(NoName)
    ensures CreateRequest(f).Sends? ==>
      CreateRequest(f).request.name == f.groupName
      && |CreateRequest(f).request.memberIds| == |f.selectedMembers|
      && forall i :: 0 <= i < |f.selectedMembers| ==> CreateRequest(f).request.memberIds[i] == f.selectedMembers[i].userId
  {
    TrimEmpty(f.groupName);
  }

  /** `handleClose()` */
  function Close(f: Form): (r: Form)
    ensures r.groupName == "" && r.searchQuery == "" && r.searchResults == [] && r.selectedMembers == []
  {
    Form("", "", [], [])
  }

  /**
   * After `await chatService.createGroup(...)`: a group, whether the server's
   * or the one made up offline, closes the dialog with everything emptied; an
   * error it throws leaves the dialog as it was.
   */
  function AfterCreate(f: Form, outcome: Completion<ClientChat>): (r: Form)
    ensures outcome.Value? ==> r == Close(f)
    ensures !outcome.Value? ==> r == f
  {
    if outcome.Value? then Close(f) else f
  }

  /**
   * `handleCreateGroup`: past the guard, the group is created through the
   * chat service, so a server error of 500 or more or a network error still
   * closes the dialog, the offline group being cached; any other error leaves
   * the dialog and the cache as they were.
   */
  method HandleCreateGroup(storage: LocalStorage, f: Form, response: Response<ClientChat>, now: nat)
    returns (step: CreateStep, r: Form)
    modifies storage
    ensures step == CreateRequest(f)
    ensures step.Refused? ==> r == f && unchanged(storage)
    ensures step.Sends? && (response.Ok? || Unavailable(response)) ==> r == Close(f)
    ensures step.Sends? && response.Ok? ==>
      storage.cachedChats == ChatService.WithChat(old(storage.cachedChats), response.data)
    ensures step.Sends? && Unavailable(response) ==>
      storage.cachedChats == ChatService.WithChat(old(storage.cachedChats),
                                                  LocalGroup(LocalId(now), f.groupName, Ids(f.selectedMembers), now))
    ensures step.Sends? && response.Error? && !Unavailable(response) ==>
      r == f && storage.cachedChats == old(storage.cachedChats)
    ensures storage.token == old(storage.token) && storage.user == old(storage.user)
    ensures storage.cachedUsers == old(storage.cachedUsers) && storage.cachedMessages == old(storage.cachedMessages)
  {
    step := CreateRequest(f);
    if step.Refused? {
      return step, f;
    }
    var outcome := ChatService.CreateGroup(storage, step.request.name, step.request.memberIds, response, now);
    r := AfterCreate(f, outcome);
  }

  /** What `searchUsers` answered: `response.data.users`, possibly missing. */
  datatype UsersData = UsersData(users: Option<seq<ClientUser>>)

  /** Whether a query is sent: two characters or more. */
  predicate Searches(query: string) {
    |query| >= MIN_QUERY
  }

  /**
   * The results once a typed query has been handled: cleared for a short
   * query, the server's users (none if missing) on success, and after an
   * error the previous results, since the error is only logged.
   */
  function ResultsAfter(query: string, previous: seq<ClientUser>, response: Response<UsersData>): (r: seq<ClientUser>)
    ensures !Searches(query) ==> r == []
    ensures Searches(query) && response.Ok? ==> r == response.data.users.GetOr([])
    ensures Searches(query) && response.Error? ==> r == previous
  {
    if !Searches(query) then []
    else match response
      case Ok(d) => d.users.GetOr([])
      case Error(_, _) => previous
  }

  /**
   * The dialog searches from two characters on, but the backend's user
   * search refuses queries shorter than three: a two-character query is sent,
   * refused, and the results of the previous query stay on screen.
   */
  lemma TwoCharacterQuery(db: MockDatabase.Db, query: string, callerId: string, previous: seq<ClientUser>,
                          code: Option<string>)
    requires db.Valid() && |query| == 2
    ensures Searches(query)
    ensures AuthController.SearchUsers(db, Str(query), callerId).Err?
    ensures ResultsAfter(query, previous, Error(code, Some(400))) == previous
  {
    AuthController.SearchUsersSpec(db, Str(query), callerId);
  }
}
