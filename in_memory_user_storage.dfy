/** `storage/user/InMemoryUserStorage.java`: users kept in a map under ids from a counter. */
module InMemoryUsers {
  import opened Wrappers
  import opened Errors
  import opened Ordering
  import opened UserModel

  /** This storage's default: only a missing name is replaced by the login; a blank one is kept. */
  function InMemoryDefaultName(name: Option<string>, login: Option<string>): (r: Option<string>)
    ensures name.Some? ==> r == name
    ensures name.None? ==> r == login
  {
    if name.None? then login else name
  }

  class InMemoryUserStorage {
    /** The id the next created user gets. */
    var userId: int
    var users: map<int, User>

    ghost predicate Valid()
      reads this
    {
      userId >= 1 && forall k :: k in users ==> k < userId
    }

    constructor ()
      ensures Valid() && userId == 1 && users == map[]
    {
      userId := 1;
      users := map[];
    }

    /** `changeEmptyName`. */
    method ChangeEmptyName(user: User)
      modifies user
      ensures user.name == InMemoryDefaultName(old(user.name), old(user.login))
      ensures user.id == old(user.id) && user.login == old(user.login) && user.email == old(user.email)
      ensures user.birthday == old(user.birthday) && user.friends == old(user.friends)
    {
      if user.name.None? {
        user.name := user.login;
      }
    }

    /**
     * `create`: a user whose id is already a key is refused; otherwise the
     * name default is applied and the user is stored under the counter's
     * value, which then moves on.
     */
    method Create(user: User) returns (r: Result<User, Error>)
      requires Valid()
      modifies this, user
      ensures Valid()
      ensures user.id.Some? && user.id.value in old(users) ==>
        r == Failure(IdAlreadyExists(UserEntity)) && users == old(users) && userId == old(userId)
        && user.id == old(user.id) && user.name == old(user.name)
      ensures !(user.id.Some? && user.id.value in old(users)) ==>
        && r == Success(user)
        && old(userId) !in old(users)
        && user.id == Some(old(userId))
        && user.name == InMemoryDefaultName(old(user.name), old(user.login))
        && users == old(users)[old(userId) := user]
        && userId == old(userId) + 1
      ensures user.login == old(user.login) && user.friends == old(user.friends)
      ensures user.email == old(user.email) && user.birthday == old(user.birthday)
    {
      if user.id.Some? && user.id.value in users {
        return Failure(IdAlreadyExists(UserEntity));
      }
      ChangeEmptyName(user);
      user.id := Some(userId);
      users := users[userId := user];
      userId := userId + 1;
      return Success(user);
    }

    /** `update`: an id that is not a key is refused; otherwise only that entry is replaced. */
    method Update(user: User) returns (r: Result<User, Error>)
      requires Valid()
      modifies this, user
      ensures Valid()
      ensures !(user.id.Some? && user.id.value in old(users)) ==>
        r == Failure(NoSuchId(UserEntity)) && users == old(users) && user.name == old(user.name)
      ensures user.id.Some? && user.id.value in old(users) ==>
        && r == Success(user)
        && user.name == InMemoryDefaultName(old(user.name), old(user.login))
        && users == old(users)[user.id.value := user]
        && users.Keys == old(users).Keys
      ensures userId == old(userId) && user.id == old(user.id)
      ensures user.login == old(user.login) && user.email == old(user.email)
      ensures user.birthday == old(user.birthday) && user.friends == old(user.friends)
    {
      if !(user.id.Some? && user.id.value in users) {
        return Failure(NoSuchId(UserEntity));
      }
      ChangeEmptyName(user);
      users := users[user.id.value := user];
      return Success(user);
    }

    /** `findAll`: exactly the stored users, one per key (here in ascending key order). */
    function FindAll(): (r: seq<User>)
      reads this
      ensures |r| == |users|
      ensures forall i :: 0 <= i < |r| ==> r[i] in users.Values
      ensures forall k :: k in users ==> users[k] in r
      ensures forall i :: 0 <= i < |r| ==> r[i] == users[Ascending(users.Keys)[i]]
    {
      ValuesInKeyOrder(users)
    }
  }

  /** The two defaults differ on a blank name: kept here, replaced by the login in the service. */
  lemma BlankNameIsKept(login: Option<string>)
    ensures InMemoryDefaultName(Some(" "), login) == Some(" ")
    ensures InMemoryDefaultName(None, login) == login
  {
  }
}
