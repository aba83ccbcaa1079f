/**
 * The user lists the frontend pages keep in React state (recent searches,
 * selected group members): lists of client users compared by `userId`.
 */
module UserLists {
  import opened Seqs
  import opened BrowserStorage

  /** `u => u.userId !== userId` */
  function NotUser(userId: string): (p: ClientUser -> bool)
    ensures forall u :: p(u) == (u.userId != userId)
  {
    (u: ClientUser) => u.userId != userId
  }

  /** `u => u.userId === userId` */
  function IsUser(userId: string): (p: ClientUser -> bool)
    ensures forall u :: p(u) == (u.userId == userId)
  {
    (u: ClientUser) => u.userId == userId
  }

  /** `list.some(u => u.userId === userId)` */
  predicate HasUser(list: seq<ClientUser>, userId: string) {
    exists u :: u in list && u.userId == userId
  }

  /** `list.filter(u => u.userId !== userId)` */
  function WithoutUser(list: seq<ClientUser>, userId: string): seq<ClientUser> {
    Filter(list, NotUser(userId))
  }

  /** `list.map(u => u.userId)` */
  function Ids(list: seq<ClientUser>): (r: seq<string>)
    ensures |r| == |list| && forall i :: 0 <= i < |list| ==> r[i] == list[i].userId
  {
    Map(list, (u: ClientUser) => u.userId)
  }

  /** No two entries share a `userId`. */
  ghost predicate UniqueIds(list: seq<ClientUser>) {
    forall i, j :: 0 <= i < j < |list| ==> list[i].userId != list[j].userId
  }

  /**
   * Removing a user keeps exactly the entries with another id, in their
   * order; nothing with that id is left, a list without it is unchanged, and
   * unique ids stay unique.
   */
  lemma WithoutUserSpec(list: seq<ClientUser>, userId: string, u: ClientUser)
    ensures u in WithoutUser(list, userId) <==> u in list && u.userId != userId
    ensures !HasUser(WithoutUser(list, userId), userId)
    ensures Embeds(WithoutUser(list, userId), list)
    ensures !HasUser(list, userId) ==> WithoutUser(list, userId) == list
    ensures UniqueIds(list) ==> UniqueIds(WithoutUser(list, userId))
  {
    FilterMembership(list, NotUser(userId), u);
    FilterEmbeds(list, NotUser(userId));
    if !HasUser(list, userId) {
      FilterAll(list, NotUser(userId));
    }
    if UniqueIds(list) {
      UniqueIdsFilter(list, NotUser(userId));
    }
  }

  lemma {:induction false} UniqueIdsFilter(list: seq<ClientUser>, p: ClientUser -> bool)
    requires UniqueIds(list)
    ensures UniqueIds(Filter(list, p))
  {
    if list != [] {
      var rest := Filter(list[1..], p);
      assert UniqueIds(list[1..]) by {
        forall i, j | 0 <= i < j < |list[1..]| ensures list[1..][i].userId != list[1..][j].userId {
          assert list[1..][i] == list[i + 1] && list[1..][j] == list[j + 1];
        }
      }
      UniqueIdsFilter(list[1..], p);
      if p(list[0]) {
        var r := Filter(list, p);
        assert r == [list[0]] + rest;
        forall j | 1 <= j < |r| ensures r[0].userId != r[j].userId {
          assert r[j] == rest[j - 1] && rest[j - 1] in list[1..];
          var k :| 0 <= k < |list[1..]| && list[1..][k] == rest[j - 1];
          assert list[k + 1] == r[j];
        }
        forall i, j | 0 <= i < j < |r| ensures r[i].userId != r[j].userId {
          if i > 0 {
            assert r[i] == rest[i - 1] && r[j] == rest[j - 1];
          }
        }
      }
    }
  }
}
