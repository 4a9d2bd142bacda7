/** `service/FilmService.java`: existence checks in front of the film storage. */
module FilmServices {
  import opened Wrappers
  import opened Errors
  import opened Ordering
  import opened FilmModel
  import opened UserDb
  import opened FilmDb

  /** The order of the lookups before a like: the user first, then the film. */
  function ResolveLike(films: FilmDbStorage, users: UserDbStorage, filmId: int, userId: int): (o: Outcome<Error>)
    reads films, users
    ensures o.Pass? <==> userId in users.users && filmId in films.films
    ensures userId !in users.users ==> o == Fail(NotFound(UserEntity, Some(userId)))
    ensures userId in users.users && filmId !in films.films ==> o == Fail(NotFound(FilmEntity, Some(filmId)))
  {
    var user := users.GetById(Some(userId));
    if user.Failure? then Fail(user.error)
    else
      var film := films.GetById(Some(filmId));
      if film.Failure? then Fail(film.error) else Pass
  }

  class FilmService {
    const filmStorage: FilmDbStorage
    const userStorage: UserDbStorage

    constructor (filmStorage: FilmDbStorage, userStorage: UserDbStorage)
      ensures this.filmStorage == filmStorage && this.userStorage == userStorage
    {
      this.filmStorage := filmStorage;
      this.userStorage := userStorage;
    }

    ghost predicate Valid()
      reads this, filmStorage, userStorage
    {
      filmStorage.Valid() && userStorage.Valid()
    }

    /** `create`: straight to the storage. */
    method Create(film: Film) returns (saved: Film)
      requires Valid()
      modifies filmStorage, film
      ensures Valid()
      ensures saved == film && film.id == Some(old(filmStorage.nextId))
      ensures filmStorage.films == old(filmStorage.films)[old(filmStorage.nextId) := old(filmStorage.RowOf(film))]
      ensures filmStorage.likes == old(filmStorage.likes) && filmStorage.nextId == old(filmStorage.nextId) + 1
      ensures filmStorage.RowOf(film) == old(filmStorage.RowOf(film))
      ensures film.likeFromUserId == old(film.likeFromUserId) && film.genres == old(film.genres)
    {
      saved := filmStorage.Create(film);
    }

    /** `update`: an unknown film id fails before anything changes. */
    method Update(film: Film) returns (r: Result<Film, Error>)
      requires Valid()
      modifies filmStorage
      ensures Valid()
      ensures film.id.None? || film.id.value !in old(filmStorage.films) ==>
        r == Failure(NotFound(FilmEntity, film.id)) && filmStorage.films == old(filmStorage.films)
      ensures film.id.Some? && film.id.value in old(filmStorage.films) ==>
        r == Success(film) && filmStorage.films == old(filmStorage.films)[film.id.value := filmStorage.RowOf(film)]
      ensures filmStorage.likes == old(filmStorage.likes) && filmStorage.nextId == old(filmStorage.nextId)
    {
      var found := GetFilmById(film.id);
      if found.Failure? {
        return Failure(found.error);
      }
      var saved := filmStorage.Update(film);
      return Success(saved);
    }

    function GetFilmById(filmId: Option<int>): (r: Result<FilmRecord, Error>)
      reads this, filmStorage
      ensures r.Failure? <==> filmId.None? || filmId.value !in filmStorage.films
      ensures r.Failure? ==> r.error == NotFound(FilmEntity, filmId)
      ensures r.Success? ==> r.value == MapRowToFilm(filmStorage.films, filmStorage.likes, filmId.value)
    {
      filmStorage.GetById(filmId)
    }

    function FindAll(): (r: seq<FilmRecord>)
      reads this, filmStorage
      ensures r == FindAllFilms(filmStorage.films, filmStorage.likes)
    {
      filmStorage.FindAll()
    }

    /** `addLike`: the user, then the film, must exist; only then is the like inserted. */
    method AddLike(filmId: int, userId: int) returns (outcome: Outcome<Error>)
      requires Valid()
      modifies filmStorage
      ensures Valid()
      ensures old(ResolveLike(filmStorage, userStorage, filmId, userId)).Fail? ==>
        outcome == old(ResolveLike(filmStorage, userStorage, filmId, userId)) && filmStorage.likes == old(filmStorage.likes)
      ensures old(ResolveLike(filmStorage, userStorage, filmId, userId)).Pass? ==>
        && (Like(userId, filmId) in old(filmStorage.likes) ==>
              outcome == Fail(DuplicateLike(filmId, userId)) && filmStorage.likes == old(filmStorage.likes))
        && (Like(userId, filmId) !in old(filmStorage.likes) ==>
              outcome == Pass && filmStorage.likes == old(filmStorage.likes) + {Like(userId, filmId)})
      ensures filmStorage.films == old(filmStorage.films) && filmStorage.nextId == old(filmStorage.nextId)
    {
      var check := ResolveLike(filmStorage, userStorage, filmId, userId);
      if check.Fail? {
        return check;
      }
      outcome := filmStorage.AddLike(filmId, userId);
    }

    /** `deleteLike`: the user, then the film, must exist; then the like goes, if it was there. */
    method DeleteLike(filmId: int, userId: int) returns (outcome: Outcome<Error>)
      requires Valid()
      modifies filmStorage
      ensures Valid()
      ensures old(ResolveLike(filmStorage, userStorage, filmId, userId)).Fail? ==>
        outcome == old(ResolveLike(filmStorage, userStorage, filmId, userId)) && filmStorage.likes == old(filmStorage.likes)
      ensures old(ResolveLike(filmStorage, userStorage, filmId, userId)).Pass? ==>
        outcome == Pass && filmStorage.likes == old(filmStorage.likes) - {Like(userId, filmId)}
      ensures filmStorage.films == old(filmStorage.films) && filmStorage.nextId == old(filmStorage.nextId)
    {
      var check := ResolveLike(filmStorage, userStorage, filmId, userId);
      if check.Fail? {
        return check;
      }
      filmStorage.DeleteLike(filmId, userId);
      return Pass;
    }

    /** `showMostPopularFilms`: straight to the storage. */
    function ShowMostPopularFilms(count: nat): (r: seq<FilmRecord>)
      reads this, filmStorage
      ensures r == MostPopular(filmStorage.films, filmStorage.likes, count)
    {
      filmStorage.ShowMostPopularFilms(count)
    }
  }

  /** With both the user and the film unknown, the user's `NotFound` is the one raised. */
  lemma UnknownUserReportedFirst(films: FilmDbStorage, users: UserDbStorage, filmId: int, userId: int)
    requires userId !in users.users && filmId !in films.films
    ensures ResolveLike(films, users, filmId, userId) == Fail(NotFound(UserEntity, Some(userId)))
    ensures Message(ResolveLike(films, users, filmId, userId).error) == Message(NotFound(UserEntity, Some(userId)))
  {
  }
}
