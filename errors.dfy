/** The exceptions the core throws, with the messages it formats for them. */
module Errors {
  import opened Wrappers

  datatype Entity = UserEntity | FilmEntity

  /** The Java exception class an error is raised as. */
  datatype ExceptionClass =
    | EntityNotFoundException
    | ValidationException
    | DuplicateKeyException
    | UpdateException

  datatype Error =
      /** `getById` found no row; `id` is `None` when the Java id was `null`. */
    | NotFound(entity: Entity, id: Option<int>)
      /** `addFriend` refused the pair, and `deleteFriend` found no forward row (same text). */
    | AlreadyInFriendship(userId: int, friendId: int)
      /** `addLike` hit the primary key of `likes`. */
    | DuplicateLike(filmId: int, userId: int)
      /** The `INSERT INTO friendship` hit the primary key (user_id, friend_id). */
    | DuplicateFriendshipKey(userId: int, friendId: int)
      /** An in-memory `create` got an object whose id is already a key. */
    | IdAlreadyExists(entity: Entity)
      /** An in-memory `update` got an id that is not a key. */
    | NoSuchId(entity: Entity)

  function ClassOf(e: Error): ExceptionClass {
    match e
    case NotFound(_, _) => EntityNotFoundException
    case AlreadyInFriendship(_, _) => ValidationException
    case DuplicateLike(_, _) => DuplicateKeyException
    case DuplicateFriendshipKey(_, _) => DuplicateKeyException
    case IdAlreadyExists(_) => ValidationException
    case NoSuchId(_) => UpdateException
  }

  function Digit(d: nat): char
    requires d < 10
  {
    "0123456789"[d]
  }

  /** Decimal digits of `n`, as `Long.toString` writes them. */
  function NatToString(n: nat): (s: string)
    ensures |s| >= 1
    ensures forall i :: 0 <= i < |s| ==> '0' <= s[i] <= '9'
  {
    if n < 10 then [Digit(n)] else NatToString(n / 10) + [Digit(n % 10)]
  }

  /** What `%s` makes of a `Long`: its decimal form, or "null". */
  function IdToString(id: Option<int>): string {
    match id
    case None => "null"
    case Some(k) => if k < 0 then "-" + NatToString(-k) else NatToString(k)
  }

  function EntityName(e: Entity): string {
    match e
    case UserEntity => "User"
    case FilmEntity => "Film"
  }

  /**
   * The exception message. The duplicate-key failure of the friendship insert is
   * not caught by the source, so its text is the database driver's: `None`.
   */
  function Message(e: Error): (m: Option<string>)
    ensures m.None? <==> e.DuplicateFriendshipKey?
  {
    match e
    case NotFound(entity, id) =>
      Some(EntityName(entity) + " with ID " + IdToString(id) + " does not exist")
    case AlreadyInFriendship(u, f) =>
      Some("UserId " + IdToString(Some(u)) + " and friendId " + IdToString(Some(f)) + " already in friendship")
    case DuplicateLike(film, user) =>
      Some("Like on filmId " + IdToString(Some(film)) + " from userId " + IdToString(Some(user)) + " already exist")
    case DuplicateFriendshipKey(_, _) => None
    case IdAlreadyExists(entity) => Some(EntityName(entity) + " with such id already exist")
    case NoSuchId(entity) => Some(EntityName(entity) + " with such ID does not exist")
  }

  /** The decimal form of a one-digit negative id. */
  lemma NegativeDigitToString(k: int)
    requires -10 < k <= -1
    ensures IdToString(Some(k)) == ['-', Digit(-k)]
  {
    assert NatToString(-k) == [Digit(-k)];
  }

  /** The message of the friendship validation failure, for users 1 and 2. */
  lemma FriendshipMessage()
    ensures Message(AlreadyInFriendship(1, 2)) == Some("UserId 1 and friendId 2 already in friendship")
    ensures ClassOf(AlreadyInFriendship(1, 2)) == ValidationException
  {
    assert IdToString(Some(1)) == "1" && IdToString(Some(2)) == "2";
    var head := "UserId " + "1" + " and friendId ";
    assert head == "UserId 1 and friendId ";
    assert head + "2" + " already in friendship" == "UserId 1 and friendId 2 already in friendship";
  }

  /** The message of a repeated like, for film 3 and user 4. */
  lemma DuplicateLikeMessage()
    ensures Message(DuplicateLike(3, 4)) == Some("Like on filmId 3 from userId 4 already exist")
    ensures ClassOf(DuplicateLike(3, 4)) == DuplicateKeyException
  {
    assert IdToString(Some(3)) == "3" && IdToString(Some(4)) == "4";
    assert "Like on filmId " + "3" + " from userId " + "4" + " already exist"
      == "Like on filmId 3 from userId 4 already exist";
  }

  /** The message `UserDbStorageTest` expects for an unknown user id -1. */
  lemma UserNotFoundMessage()
    ensures Message(NotFound(UserEntity, Some(-1))) == Some("User with ID -1 does not exist")
    ensures ClassOf(NotFound(UserEntity, Some(-1))) == EntityNotFoundException
  {
    NegativeDigitToString(-1);
    assert IdToString(Some(-1)) == "-1";
    assert "User" + " with ID " + "-1" + " does not exist" == "User with ID -1 does not exist";
  }

  /** The message `FilmDbStorageTest` expects for an unknown film id -2. */
  lemma FilmNotFoundMessage()
    ensures Message(NotFound(FilmEntity, Some(-2))) == Some("Film with ID -2 does not exist")
    ensures ClassOf(NotFound(FilmEntity, Some(-2))) == EntityNotFoundException
  {
    NegativeDigitToString(-2);
    assert IdToString(Some(-2)) == "-2";
    assert "Film" + " with ID " + "-2" + " does not exist" == "Film with ID -2 does not exist";
  }
}
