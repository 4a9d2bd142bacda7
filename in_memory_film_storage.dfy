/** `storage/film/InMemoryFilmStorage.java`: films kept in a map under ids from a static counter. */
module InMemoryFilms {
  import opened Wrappers
  import opened Errors
  import opened Ordering
  import opened FilmModel

  /** The static `filmId` counter, one object shared by every storage that holds it. */
  class FilmIdCounter {
    var filmId: int

    constructor ()
      ensures filmId == 1
    {
      filmId := 1;
    }

    /** `getNextId`: returns the counter and post-increments it. */
    method GetNextId() returns (id: int)
      modifies this
      ensures id == old(filmId) && filmId == old(filmId) + 1
    {
      id := filmId;
      filmId := filmId + 1;
    }
  }

  class InMemoryFilmStorage {
    const counter: FilmIdCounter
    var films: map<int, Film>

    ghost predicate Valid()
      reads this, counter
    {
      counter.filmId >= 1 && forall k :: k in films ==> k < counter.filmId
    }

    constructor (counter: FilmIdCounter)
      requires counter.filmId >= 1
      ensures Valid() && this.counter == counter && films == map[]
    {
      this.counter := counter;
      films := map[];
    }

    /** `create`: a film whose id is already a key is refused; otherwise it is stored under the next id. */
    method Create(film: Film) returns (r: Result<Film, Error>)
      requires Valid()
      modifies this, film, counter
      ensures Valid()
      ensures film.id.Some? && film.id.value in old(films) ==>
        r == Failure(IdAlreadyExists(FilmEntity)) && films == old(films)
        && counter.filmId == old(counter.filmId) && film.id == old(film.id)
      ensures !(film.id.Some? && film.id.value in old(films)) ==>
        && r == Success(film)
        && old(counter.filmId) !in old(films)
        && film.id == Some(old(counter.filmId))
        && films == old(films)[old(counter.filmId) := film]
        && counter.filmId == old(counter.filmId) + 1
      ensures film.name == old(film.name) && film.likeFromUserId == old(film.likeFromUserId)
      ensures film.genres == old(film.genres) && film.description == old(film.description)
      ensures film.releaseDate == old(film.releaseDate) && film.duration == old(film.duration)
      ensures film.rate == old(film.rate)
    {
      if film.id.Some? && film.id.value in films {
        return Failure(IdAlreadyExists(FilmEntity));
      }
      var id := counter.GetNextId();
      film.id := Some(id);
      films := films[id := film];
      return Success(film);
    }

    /** `update`: an id that is not a key is refused; otherwise only that entry is replaced. */
    method Update(film: Film) returns (r: Result<Film, Error>)
      requires Valid()
      modifies this
      ensures Valid()
      ensures !(film.id.Some? && film.id.value in old(films)) ==>
        r == Failure(NoSuchId(FilmEntity)) && films == old(films)
      ensures film.id.Some? && film.id.value in old(films) ==>
        r == Success(film) && films == old(films)[film.id.value := film] && films.Keys == old(films).Keys
    {
      if !(film.id.Some? && film.id.value in films) {
        return Failure(NoSuchId(FilmEntity));
      }
      films := films[film.id.value := film];
      return Success(film);
    }

    /** `findAll`: exactly the stored films, one per key (here in ascending key order). */
    function FindAll(): (r: seq<Film>)
      reads this
      ensures |r| == |films|
      ensures forall i :: 0 <= i < |r| ==> r[i] in films.Values
      ensures forall k :: k in films ==> films[k] in r
      ensures forall i :: 0 <= i < |r| ==> r[i] == films[Ascending(films.Keys)[i]]
    {
      ValuesInKeyOrder(films)
    }
  }

  /**
   * The counter is shared, so another storage's `create` moves it on; every
   * storage's invariant survives that, and the next id is still fresh for all.
   */
  twostate lemma ValidSurvivesCounterAdvance(s: InMemoryFilmStorage)
    requires old(s.Valid())
    requires unchanged(s)
    requires old(s.counter.filmId) <= s.counter.filmId
    ensures s.Valid()
    ensures s.counter.filmId !in s.films
  {
  }

  /** Two storages sharing the counter never hand out the same id. */
  method CreateInTwoStorages(a: InMemoryFilmStorage, b: InMemoryFilmStorage, x: Film, y: Film)
    returns (rx: Result<Film, Error>, ry: Result<Film, Error>)
    requires a != b && a.counter == b.counter && x != y
    requires a.Valid() && b.Valid()
    requires x.id.None? && y.id.None?
    modifies a, b, x, y, a.counter
    ensures rx.Success? && ry.Success?
    ensures x.id.Some? && y.id.Some? && x.id != y.id
    ensures a.Valid() && b.Valid()
  {
    rx := a.Create(x);
    ValidSurvivesCounterAdvance(b);
    ry := b.Create(y);
  }
}
