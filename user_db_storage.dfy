/**
 * `dao/UserDbStorage.java`: the `users` and `friendship` tables, the
 * statements that change them and the queries over them.
 */
module UserDb {
  import opened Wrappers
  import opened Errors
  import opened Ordering
  import opened UserModel
  import opened Friendships

  /** A user as a query returns it: its id, its columns and the ids it lists as friends. */
  datatype UserRecord = UserRecord(id: int, row: UserRow, friends: set<int>)

  function RecordOf(users: map<int, UserRow>, rows: set<Friendship>, id: int): UserRecord
    requires id in users
  {
    UserRecord(id, users[id], FriendIds(rows, id))
  }

  /**
   * `r` lists the users whose ids are `ids`, each once, each with its stored
   * columns and its friend ids, highest id first (`ORDER BY user_id DESC`).
   */
  ghost predicate ListsUsers(r: seq<UserRecord>, users: map<int, UserRow>, rows: set<Friendship>, ids: set<int>)
    requires ids <= users.Keys
  {
    && |r| == |ids|
    && (forall i :: 0 <= i < |r| ==> r[i].id in ids && r[i] == RecordOf(users, rows, r[i].id))
    && (forall x :: x in ids ==> exists i :: 0 <= i < |r| && r[i].id == x)
    && (forall i, j :: 0 <= i < j < |r| ==> r[i].id > r[j].id)
  }

  /**
   * `r` lists the users whose ids are `ids` as `showFriends` and
   * `showCommonFriends` return them: each once with its stored columns,
   * highest id first, and with its friend ids only when it is the one user
   * listed. The key-set filter of those queries passes a friendship row only
   * when the row's one-entry map has the same keys as the whole result.
   */
  ghost predicate ShowsUsers(r: seq<UserRecord>, users: map<int, UserRow>, rows: set<Friendship>, ids: set<int>)
    requires ids <= users.Keys
  {
    && |r| == |ids|
    && (forall i :: 0 <= i < |r| ==> r[i].id in ids && r[i].row == users[r[i].id])
    && (forall i :: 0 <= i < |r| ==> r[i].friends == if |ids| == 1 then FriendIds(rows, r[i].id) else {})
    && (forall x :: x in ids ==> exists i :: 0 <= i < |r| && r[i].id == x)
    && (forall i, j :: 0 <= i < j < |r| ==> r[i].id > r[j].id)
  }

  /** Records made one per id of `order` name every id of `order`. */
  lemma RecordsCoverOrder(r: seq<UserRecord>, order: seq<int>)
    requires |r| == |order| && forall i :: 0 <= i < |r| ==> r[i].id == order[i]
    ensures forall x :: x in order ==> exists i :: 0 <= i < |r| && r[i].id == x
  {
    forall x | x in order ensures exists i :: 0 <= i < |r| && r[i].id == x {
      var i :| 0 <= i < |order| && order[i] == x;
      assert r[i].id == x;
    }
  }

  /** The records of `ids`, highest id first. */
  function Records(users: map<int, UserRow>, rows: set<Friendship>, ids: set<int>): (r: seq<UserRecord>)
    requires ids <= users.Keys
    ensures ListsUsers(r, users, rows, ids)
  {
    var order := Descending(ids);
    var r := seq(|order|, i requires 0 <= i < |order| => RecordOf(users, rows, order[i]));
    assert forall i :: 0 <= i < |r| ==> r[i].id == order[i];
    RecordsCoverOrder(r, order);
    r
  }

  /** The records with their friend ids cleared. */
  function WithoutFriends(listed: seq<UserRecord>): (r: seq<UserRecord>)
    ensures |r| == |listed|
    ensures forall i :: 0 <= i < |r| ==> r[i].id == listed[i].id && r[i].row == listed[i].row && r[i].friends == {}
  {
    seq(|listed|, i requires 0 <= i < |listed| => listed[i].(friends := {}))
  }

  /** A full listing of one user is already what the friend queries show. */
  lemma ListedShowsOne(listed: seq<UserRecord>, users: map<int, UserRow>, rows: set<Friendship>, ids: set<int>)
    requires ids <= users.Keys && |ids| == 1
    requires ListsUsers(listed, users, rows, ids)
    ensures ShowsUsers(listed, users, rows, ids)
  {
  }

  /** A full listing of any other number of users, with the friends cleared, is what they show. */
  lemma ClearedShowsSeveral(listed: seq<UserRecord>, users: map<int, UserRow>, rows: set<Friendship>, ids: set<int>)
    requires ids <= users.Keys && |ids| != 1
    requires ListsUsers(listed, users, rows, ids)
    ensures ShowsUsers(WithoutFriends(listed), users, rows, ids)
  {
    var r := WithoutFriends(listed);
    forall x | x in ids ensures exists i :: 0 <= i < |r| && r[i].id == x {
      var i :| 0 <= i < |listed| && listed[i].id == x;
      assert r[i].id == x;
    }
  }

  /** The records of `ids` as the friend queries return them. */
  function Shown(users: map<int, UserRow>, rows: set<Friendship>, ids: set<int>): (r: seq<UserRecord>)
    requires ids <= users.Keys
    ensures ShowsUsers(r, users, rows, ids)
  {
    var listed := Records(users, rows, ids);
    if |ids| == 1 then
      ListedShowsOne(listed, users, rows, ids);
      listed
    else
      ClearedShowsSeveral(listed, users, rows, ids);
      WithoutFriends(listed)
  }

  /** With one user shown, it comes back exactly as `findAll` lists it, friends included. */
  lemma OneShownIsListed(r: seq<UserRecord>, users: map<int, UserRow>, rows: set<Friendship>, ids: set<int>)
    requires ids <= users.Keys
    requires ShowsUsers(r, users, rows, ids) && |ids| == 1
    ensures ListsUsers(r, users, rows, ids)
  {
  }

  /** With two users shown, neither carries friend ids, whatever rows they have. */
  lemma SeveralShownHaveNoFriends(users: map<int, UserRow>, rows: set<Friendship>, a: int, b: int)
    requires a in users && b in users && a != b
    ensures forall i :: 0 <= i < |Shown(users, rows, {a, b})| ==> Shown(users, rows, {a, b})[i].friends == {}
  {
    assert |{a, b}| == 2;
  }

  function IdsOf(r: seq<UserRecord>): (o: seq<int>)
    ensures |o| == |r| && forall i :: 0 <= i < |r| ==> o[i] == r[i].id
  {
    seq(|r|, i requires 0 <= i < |r| => r[i].id)
  }

  lemma ListedIdsAreDescending(r: seq<UserRecord>, users: map<int, UserRow>, rows: set<Friendship>, ids: set<int>)
    requires ids <= users.Keys
    requires ListsUsers(r, users, rows, ids)
    ensures IdsOf(r) == Ranked(ids, ZeroWeights(ids))
  {
    var o := IdsOf(r);
    var w := ZeroWeights(ids);
    forall x | x in ids ensures x in o {
      var i :| 0 <= i < |r| && r[i].id == x;
      assert o[i] == x;
    }
    forall i, j | 0 <= i < j < |o| ensures Precedes(w, o[i], o[j]) {
    }
    RankedUnique(ids, w, o);
  }

  /** The order is total, so a query can return only one list. */
  lemma ListsUsersUnique(r1: seq<UserRecord>, r2: seq<UserRecord>,
                         users: map<int, UserRow>, rows: set<Friendship>, ids: set<int>)
    requires ids <= users.Keys
    requires ListsUsers(r1, users, rows, ids) && ListsUsers(r2, users, rows, ids)
    ensures r1 == r2
  {
    ListedIdsAreDescending(r1, users, rows, ids);
    ListedIdsAreDescending(r2, users, rows, ids);
    forall i | 0 <= i < |r1| ensures r1[i] == r2[i] {
      assert IdsOf(r1)[i] == IdsOf(r2)[i];
    }
  }

  class UserDbStorage {
    /** The `users` table, by `user_id`. */
    var users: map<int, UserRow>
    /** The `friendship` table. */
    var friendship: set<Friendship>
    /** The next value of the `user_id` identity column. */
    var nextId: int

    ghost predicate Valid()
      reads this
    {
      && nextId >= 1
      && (forall k :: k in users ==> k < nextId)
      && KeyUnique(friendship)
    }

    constructor ()
      ensures Valid()
      ensures users == map[] && friendship == {} && nextId == 1
    {
      users := map[];
      friendship := {};
      nextId := 1;
    }

    /** `create`: inserts the columns of `mapUserToRow` under a generated key and sets the user's id to it. */
    method Create(user: User) returns (saved: User)
      requires Valid()
      modifies this, user
      ensures Valid()
      ensures saved == user && user.id == Some(old(nextId))
      ensures old(nextId) !in old(users)
      ensures users == old(users)[old(nextId) := old(user.Row())]
      ensures friendship == old(friendship) && nextId == old(nextId) + 1
      ensures user.Row() == old(user.Row()) && user.friends == old(user.friends)
    {
      var columns := user.MapUserToRow();
      var row := RowFromColumns(columns).value;
      var key := nextId;
      users := users[key := row];
      nextId := nextId + 1;
      user.id := Some(key);
      saved := user;
    }

    /** `update`: overwrites the four columns of the row with the user's id; with no such row nothing changes. */
    method Update(user: User) returns (saved: User)
      requires Valid()
      modifies this
      ensures Valid()
      ensures saved == user
      ensures user.id.Some? && user.id.value in old(users) ==> users == old(users)[user.id.value := user.Row()]
      ensures !(user.id.Some? && user.id.value in old(users)) ==> users == old(users)
      ensures friendship == old(friendship) && nextId == old(nextId)
    {
      if user.id.Some? && user.id.value in users {
        users := users[user.id.value := user.Row()];
      }
      saved := user;
    }

    /** `getById`: the user with its friend ids, or "User with ID %s does not exist". */
    function GetById(userId: Option<int>): (r: Result<UserRecord, Error>)
      reads this
      ensures r.Failure? <==> userId.None? || userId.value !in users
      ensures r.Failure? ==> r.error == NotFound(UserEntity, userId)
      ensures r.Success? ==> r.value.id == userId.value && r.value.row == users[userId.value]
      ensures r.Success? ==> forall v :: v in r.value.friends <==> HasKey(friendship, userId.value, v)
    {
      if userId.Some? && userId.value in users then Success(RecordOf(users, friendship, userId.value))
      else Failure(NotFound(UserEntity, userId))
    }

    /** `findAll`: every user, with its friend ids, highest id first. */
    function FindAll(): (r: seq<UserRecord>)
      reads this
      ensures ListsUsers(r, users, friendship, users.Keys)
    {
      Records(users, friendship, users.Keys)
    }

    /** `showFriends`: the users u has a row for, of either status, highest id first, decorated through the key-set filter. */
    function ShowFriends(userId: int): (r: seq<UserRecord>)
      reads this
      ensures ShowsUsers(r, users, friendship, FriendIds(friendship, userId) * users.Keys)
      ensures forall i :: 0 <= i < |r| ==> HasKey(friendship, userId, r[i].id)
    {
      Shown(users, friendship, FriendIds(friendship, userId) * users.Keys)
    }

    /** `showCommonFriends`: the users both list, highest id first. */
    function ShowCommonFriends(userId: int, friendId: int): (r: seq<UserRecord>)
      reads this
      ensures ShowsUsers(r, users, friendship, FriendIds(friendship, userId) * FriendIds(friendship, friendId) * users.Keys)
      ensures forall i :: 0 <= i < |r| ==> HasKey(friendship, userId, r[i].id) && HasKey(friendship, friendId, r[i].id)
    {
      Shown(users, friendship, FriendIds(friendship, userId) * FriendIds(friendship, friendId) * users.Keys)
    }

    /** `addFriend`, one statement at a time; the update is not undone when the insert fails. */
    method AddFriend(userId: int, friendId: int) returns (outcome: Outcome<Error>)
      requires Valid()
      modifies this
      ensures Valid()
      ensures Step(friendship, outcome) == AddFriendStep(old(friendship), userId, friendId)
      ensures users == old(users) && nextId == old(nextId)
    {
      AddFriendPreservesKeyUnique(friendship, userId, friendId);
      var pair := PairRows(friendship, userId, friendId);
      if |pair| == 2 || Friendship(userId, friendId, Requested) in pair {
        return Fail(AlreadyInFriendship(userId, friendId));
      }
      var status;
      if |pair| == 1 {
        status := Approved;
        friendship := SetStatusOf(friendship, friendId, Approved);
      } else {
        status := Requested;
      }
      if HasKey(friendship, userId, friendId) {
        return Fail(DuplicateFriendshipKey(userId, friendId));
      }
      friendship := friendship + {Friendship(userId, friendId, status)};
      return Pass;
    }

    /** `deleteFriend`, one statement at a time. */
    method DeleteFriend(userId: int, friendId: int) returns (outcome: Outcome<Error>)
      requires Valid()
      modifies this
      ensures Valid()
      ensures Step(friendship, outcome) == DeleteFriendStep(old(friendship), userId, friendId)
      ensures users == old(users) && nextId == old(nextId)
    {
      DeleteFriendPreservesKeyUnique(friendship, userId, friendId);
      var pair := PairRows(friendship, userId, friendId);
      if Friendship(userId, friendId, Requested) in pair {
        friendship := friendship - {Friendship(userId, friendId, Requested)};
      } else if Friendship(userId, friendId, Approved) in pair {
        friendship := friendship - {Friendship(userId, friendId, Approved)};
        friendship := SetStatusOf(friendship, friendId, Requested);
      } else {
        return Fail(AlreadyInFriendship(userId, friendId));
      }
      return Pass;
    }
  }
}
