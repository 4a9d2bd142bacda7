/** `service/UserService.java`: existence checks and the name default in front of the user storage. */
module UserServices {
  import opened Wrappers
  import opened Errors
  import opened JavaText
  import opened UserModel
  import opened Friendships
  import opened UserDb

  /** The service's default: a missing or blank (`String.isBlank`) name becomes the login. */
  function ServiceDefaultName(name: Option<string>, login: Option<string>): (r: Option<string>)
    ensures name.Some? && !IsBlank(name.value) ==> r == name
    ensures name.None? || IsBlank(name.value) ==> r == login
  {
    if name.None? || IsBlank(name.value) then login else name
  }

  /** Applying the default twice is the same as once. */
  lemma DefaultNameIdempotent(name: Option<string>, login: Option<string>)
    ensures ServiceDefaultName(ServiceDefaultName(name, login), login) == ServiceDefaultName(name, login)
  {
  }

  /** A blank name and a missing one are both replaced; a name with a visible character is kept. */
  lemma DefaultNameExamples(login: Option<string>)
    ensures ServiceDefaultName(None, login) == login
    ensures ServiceDefaultName(Some(""), login) == login
    ensures ServiceDefaultName(Some(" \t"), login) == login
    ensures ServiceDefaultName(Some("Nick"), login) == Some("Nick")
  {
    assert !IsJavaWhitespace("Nick"[0]);
  }

  /** The order of the two `getUserById` calls: the user's failure is reported before the friend's. */
  function ResolvePair(storage: UserDbStorage, userId: int, friendId: int): (o: Outcome<Error>)
    reads storage
    ensures o.Pass? <==> userId in storage.users && friendId in storage.users
    ensures userId !in storage.users ==> o == Fail(NotFound(UserEntity, Some(userId)))
    ensures userId in storage.users && friendId !in storage.users ==> o == Fail(NotFound(UserEntity, Some(friendId)))
  {
    var user := storage.GetById(Some(userId));
    if user.Failure? then Fail(user.error)
    else
      var friend := storage.GetById(Some(friendId));
      if friend.Failure? then Fail(friend.error) else Pass
  }

  class UserService {
    const userStorage: UserDbStorage

    constructor (userStorage: UserDbStorage)
      ensures this.userStorage == userStorage
    {
      this.userStorage := userStorage;
    }

    ghost predicate Valid()
      reads this, userStorage
    {
      userStorage.Valid()
    }

    /** `changeEmptyName`. */
    method ChangeEmptyName(user: User)
      modifies user
      ensures user.name == ServiceDefaultName(old(user.name), old(user.login))
      ensures user.id == old(user.id) && user.login == old(user.login) && user.email == old(user.email)
      ensures user.birthday == old(user.birthday) && user.friends == old(user.friends)
    {
      if user.name.None? || IsBlank(user.name.value) {
        user.name := user.login;
      }
    }

    /** `create`: the name default, then the insert. */
    method Create(user: User) returns (saved: User)
      requires Valid()
      modifies userStorage, user
      ensures Valid()
      ensures saved == user && user.id == Some(old(userStorage.nextId))
      ensures user.name == ServiceDefaultName(old(user.name), old(user.login))
      ensures userStorage.users == old(userStorage.users)[old(userStorage.nextId) :=
        UserRow(old(user.email), old(user.login), ServiceDefaultName(old(user.name), old(user.login)), old(user.birthday))]
      ensures userStorage.friendship == old(userStorage.friendship)
      ensures userStorage.nextId == old(userStorage.nextId) + 1
      ensures user.email == old(user.email) && user.login == old(user.login)
      ensures user.birthday == old(user.birthday) && user.friends == old(user.friends)
    {
      ChangeEmptyName(user);
      saved := userStorage.Create(user);
    }

    /** `update`: an unknown id fails before anything changes; otherwise the name default, then the overwrite. */
    method Update(user: User) returns (r: Result<User, Error>)
      requires Valid()
      modifies userStorage, user
      ensures Valid()
      ensures user.id.None? || user.id.value !in old(userStorage.users) ==>
        r == Failure(NotFound(UserEntity, user.id)) && userStorage.users == old(userStorage.users)
        && user.name == old(user.name)
      ensures user.id.Some? && user.id.value in old(userStorage.users) ==>
        && r == Success(user)
        && user.name == ServiceDefaultName(old(user.name), old(user.login))
        && userStorage.users == old(userStorage.users)[user.id.value :=
             UserRow(old(user.email), old(user.login), ServiceDefaultName(old(user.name), old(user.login)), old(user.birthday))]
      ensures user.id == old(user.id) && userStorage.friendship == old(userStorage.friendship)
      ensures userStorage.nextId == old(userStorage.nextId)
      ensures user.email == old(user.email) && user.login == old(user.login)
      ensures user.birthday == old(user.birthday) && user.friends == old(user.friends)
    {
      var found := GetUserById(user.id);
      if found.Failure? {
        return Failure(found.error);
      }
      ChangeEmptyName(user);
      var saved := userStorage.Update(user);
      return Success(saved);
    }

    /** `getUserById`. */
    function GetUserById(userId: Option<int>): (r: Result<UserRecord, Error>)
      reads this, userStorage
      ensures r.Failure? <==> userId.None? || userId.value !in userStorage.users
      ensures r.Failure? ==> r.error == NotFound(UserEntity, userId)
      ensures r.Success? ==> r.value == RecordOf(userStorage.users, userStorage.friendship, userId.value)
    {
      userStorage.GetById(userId)
    }

    function FindAll(): (r: seq<UserRecord>)
      reads this, userStorage
      ensures ListsUsers(r, userStorage.users, userStorage.friendship, userStorage.users.Keys)
    {
      userStorage.FindAll()
    }

    /** `addFriend`: both users are resolved before the friendship table is touched. */
    method AddFriend(userId: int, friendId: int) returns (outcome: Outcome<Error>)
      requires Valid()
      modifies userStorage
      ensures Valid()
      ensures old(ResolvePair(userStorage, userId, friendId)).Fail? ==>
        outcome == old(ResolvePair(userStorage, userId, friendId)) && userStorage.friendship == old(userStorage.friendship)
      ensures old(ResolvePair(userStorage, userId, friendId)).Pass? ==>
        Step(userStorage.friendship, outcome) == AddFriendStep(old(userStorage.friendship), userId, friendId)
      ensures userStorage.users == old(userStorage.users) && userStorage.nextId == old(userStorage.nextId)
    {
      var check := ResolvePair(userStorage, userId, friendId);
      if check.Fail? {
        return check;
      }
      outcome := userStorage.AddFriend(userId, friendId);
    }

    /** `deleteFriend`: both users are resolved before the friendship table is touched. */
    method DeleteFriend(userId: int, friendId: int) returns (outcome: Outcome<Error>)
      requires Valid()
      modifies userStorage
      ensures Valid()
      ensures old(ResolvePair(userStorage, userId, friendId)).Fail? ==>
        outcome == old(ResolvePair(userStorage, userId, friendId)) && userStorage.friendship == old(userStorage.friendship)
      ensures old(ResolvePair(userStorage, userId, friendId)).Pass? ==>
        Step(userStorage.friendship, outcome) == DeleteFriendStep(old(userStorage.friendship), userId, friendId)
      ensures userStorage.users == old(userStorage.users) && userStorage.nextId == old(userStorage.nextId)
    {
      var check := ResolvePair(userStorage, userId, friendId);
      if check.Fail? {
        return check;
      }
      outcome := userStorage.DeleteFriend(userId, friendId);
    }

    /** `showFriends`: an unknown user fails; otherwise the storage's list. */
    function ShowFriends(userId: int): (r: Result<seq<UserRecord>, Error>)
      reads this, userStorage
      ensures r.Failure? <==> userId !in userStorage.users
      ensures r.Failure? ==> r.error == NotFound(UserEntity, Some(userId))
      ensures r.Success? ==> ShowsUsers(r.value, userStorage.users, userStorage.friendship,
                                        FriendIds(userStorage.friendship, userId) * userStorage.users.Keys)
    {
      var user := GetUserById(Some(userId));
      if user.Failure? then Failure(user.error) else Success(userStorage.ShowFriends(userId))
    }

    /** `showCommonFriends`: the user, then the friend, must exist. */
    function ShowCommonFriends(userId: int, friendId: int): (r: Result<seq<UserRecord>, Error>)
      reads this, userStorage
      ensures r.Failure? <==> ResolvePair(userStorage, userId, friendId).Fail?
      ensures r.Failure? ==> Fail(r.error) == ResolvePair(userStorage, userId, friendId)
      ensures r.Success? ==> ShowsUsers(r.value, userStorage.users, userStorage.friendship,
        FriendIds(userStorage.friendship, userId) * FriendIds(userStorage.friendship, friendId) * userStorage.users.Keys)
    {
      var check := ResolvePair(userStorage, userId, friendId);
      if check.Fail? then Failure(check.error) else Success(userStorage.ShowCommonFriends(userId, friendId))
    }
  }
}
