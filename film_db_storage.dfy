/**
 * `dao/FilmDbStorage.java`: the `films` and `likes` tables, the statements
 * that change them and the queries over them.
 */
module FilmDb {
  import opened Wrappers
  import opened Errors
  import opened ReleaseDates
  import opened Ordering
  import opened FilmModel

  /** The columns of the `films` table that the storage writes, other than the generated `id`. */
  datatype FilmRow = FilmRow(name: Option<string>, description: Option<string>, releaseDate: Option<Date>,
                             duration: int, rate: Option<int>)

  /** A row of the `likes` table; the pair is its key. */
  datatype Like = Like(userId: int, filmId: int)

  /** A film as `mapRowToFilm` builds it. */
  datatype FilmRecord = FilmRecord(id: int, name: Option<string>, description: Option<string>,
                                   releaseDate: Option<Date>, duration: int, rate: int, likeFromUserId: set<int>)

  /** The users who liked the film. */
  function LikedBy(likes: set<Like>, filmId: int): (users: set<int>)
    ensures forall u :: u in users <==> Like(u, filmId) in likes
  {
    var users := set l | l in likes && l.filmId == filmId :: l.userId;
    assert forall u | Like(u, filmId) in likes :: u in users by {
      forall u | Like(u, filmId) in likes ensures u in users {
        assert Like(u, filmId).userId == u;
      }
    }
    users
  }

  /** `showLikeFromUserId`: the ids of the users who liked the film, highest first. */
  function ShowLikeFromUserId(likes: set<Like>, filmId: int): (r: seq<int>)
    ensures |r| == |LikedBy(likes, filmId)|
    ensures forall i :: 0 <= i < |r| ==> Like(r[i], filmId) in likes
    ensures forall u :: Like(u, filmId) in likes ==> u in r
    ensures forall i, j :: 0 <= i < j < |r| ==> r[i] > r[j]
  {
    Descending(LikedBy(likes, filmId))
  }

  /** `mapRowToFilm`: the columns, a `NULL` rate read as 0 by `getInt`, and the likes as a set. */
  function MapRowToFilm(films: map<int, FilmRow>, likes: set<Like>, id: int): (f: FilmRecord)
    requires id in films
  {
    var row := films[id];
    FilmRecord(id, row.name, row.description, row.releaseDate, row.duration, row.rate.GetOr(0), LikedBy(likes, id))
  }

  function LikeCount(likes: set<Like>, filmId: int): nat {
    |LikedBy(likes, filmId)|
  }

  /** `ORDER BY COUNT(l.user_id) DESC, f.id DESC`: more likes first, then the higher id. */
  predicate RanksAbove(likes: set<Like>, a: int, b: int) {
    LikeCount(likes, a) > LikeCount(likes, b) || (LikeCount(likes, a) == LikeCount(likes, b) && a > b)
  }

  function Popularity(films: map<int, FilmRow>, likes: set<Like>): (w: map<int, int>)
    ensures w.Keys == films.Keys
    ensures forall id :: id in w ==> w[id] == LikeCount(likes, id)
  {
    map id | id in films :: LikeCount(likes, id)
  }

  function FilmRecords(films: map<int, FilmRow>, likes: set<Like>, order: seq<int>): (r: seq<FilmRecord>)
    requires forall i :: 0 <= i < |order| ==> order[i] in films
    ensures |r| == |order|
    ensures forall i :: 0 <= i < |r| ==> r[i].id == order[i] && r[i] == MapRowToFilm(films, likes, order[i])
  {
    seq(|order|, i requires 0 <= i < |order| => MapRowToFilm(films, likes, order[i]))
  }

  lemma FilmCount(films: map<int, FilmRow>)
    ensures |films.Keys| == |films|
  {
  }

  /** The ids of the `count` best ranked films, best first. */
  function TopIds(films: map<int, FilmRow>, likes: set<Like>, count: nat): (o: seq<int>)
    ensures |o| == Min(count, |films|)
    ensures forall i :: 0 <= i < |o| ==> o[i] in films
    ensures forall i, j :: 0 <= i < j < |o| ==> RanksAbove(likes, o[i], o[j])
    ensures forall x :: x in films && x !in o ==> forall i :: 0 <= i < |o| ==> RanksAbove(likes, o[i], x)
  {
    FilmCount(films);
    var w := Popularity(films, likes);
    assert forall a, b :: a in films && b in films ==> (Precedes(w, a, b) <==> RanksAbove(likes, a, b));
    Top(films.Keys, w, count)
  }

  /** Some record of `r` is the film `x`. */
  predicate Listed(r: seq<FilmRecord>, x: int) {
    exists i :: 0 <= i < |r| && r[i].id == x
  }

  /** The records list exactly the ids of the order they were made from. */
  lemma ListedIffIn(r: seq<FilmRecord>, o: seq<int>)
    requires |r| == |o| && forall i :: 0 <= i < |r| ==> r[i].id == o[i]
    ensures forall x :: Listed(r, x) <==> x in o
  {
    forall x | x in o ensures Listed(r, x) {
      var k :| 0 <= k < |o| && o[k] == x;
      assert r[k].id == x;
    }
  }

  /**
   * `showMostPopularFilms(count)`: `min(count, number of films)` films, best
   * ranked first, and every film left out ranks below every film returned.
   */
  function MostPopular(films: map<int, FilmRow>, likes: set<Like>, count: nat): (r: seq<FilmRecord>)
    ensures |r| == Min(count, |films|)
    ensures forall i :: 0 <= i < |r| ==> r[i].id in films && r[i] == MapRowToFilm(films, likes, r[i].id)
    ensures forall i, j :: 0 <= i < j < |r| ==> RanksAbove(likes, r[i].id, r[j].id)
    ensures forall x :: x in films && !Listed(r, x) ==> forall i :: 0 <= i < |r| ==> RanksAbove(likes, r[i].id, x)
  {
    var o := TopIds(films, likes, count);
    var r := FilmRecords(films, likes, o);
    ListedIffIn(r, o);
    r
  }

  /** The films whose ids are `ids`, highest id first. */
  function FilmsDescending(films: map<int, FilmRow>, likes: set<Like>, ids: set<int>): (r: seq<FilmRecord>)
    requires ids <= films.Keys
    ensures |r| == |ids|
    ensures forall i :: 0 <= i < |r| ==> r[i].id in ids && r[i] == MapRowToFilm(films, likes, r[i].id)
    ensures forall id :: id in ids ==> Listed(r, id)
    ensures forall i, j :: 0 <= i < j < |r| ==> r[i].id > r[j].id
  {
    var order := Descending(ids);
    var r := FilmRecords(films, likes, order);
    ListedIffIn(r, order);
    r
  }

  /** `findAll`: every film, highest id first. */
  function FindAllFilms(films: map<int, FilmRow>, likes: set<Like>): (r: seq<FilmRecord>)
    ensures |r| == |films|
    ensures forall i :: 0 <= i < |r| ==> r[i].id in films && r[i] == MapRowToFilm(films, likes, r[i].id)
    ensures forall id :: id in films ==> Listed(r, id)
    ensures forall i, j :: 0 <= i < j < |r| ==> r[i].id > r[j].id
  {
    FilmCount(films);
    FilmsDescending(films, likes, films.Keys)
  }

  /** A new like shows up in that film's like set and in no other film's. */
  lemma LikeInsertedIsListed(likes: set<Like>, userId: int, filmId: int)
    ensures LikedBy(likes + {Like(userId, filmId)}, filmId) == LikedBy(likes, filmId) + {userId}
    ensures forall g :: g != filmId ==> LikedBy(likes + {Like(userId, filmId)}, g) == LikedBy(likes, g)
  {
  }

  /** A deleted like leaves that film's like set, and only that one entry goes. */
  lemma LikeDeletedIsUnlisted(likes: set<Like>, userId: int, filmId: int)
    ensures LikedBy(likes - {Like(userId, filmId)}, filmId) == LikedBy(likes, filmId) - {userId}
    ensures forall g :: g != filmId ==> LikedBy(likes - {Like(userId, filmId)}, g) == LikedBy(likes, g)
  {
  }

  /** Likes of two different users on a film give a two-element like set. */
  lemma TwoUsersTwoLikes(filmId: int, u1: int, u2: int)
    requires u1 != u2
    ensures LikedBy({Like(u1, filmId), Like(u2, filmId)}, filmId) == {u1, u2}
    ensures LikeCount({Like(u1, filmId), Like(u2, filmId)}, filmId) == 2
  {
    assert LikedBy({Like(u1, filmId), Like(u2, filmId)}, filmId) == {u1, u2};
  }

  /** A film that ranks above every other film comes first, for any positive count. */
  lemma BestIsFirst(films: map<int, FilmRow>, likes: set<Like>, count: nat, best: int)
    requires best in films && count >= 1
    requires forall x :: x in films && x != best ==> RanksAbove(likes, best, x)
    ensures |MostPopular(films, likes, count)| >= 1 && MostPopular(films, likes, count)[0].id == best
  {
    FilmCount(films);
    assert |films.Keys| >= 1 by { assert best in films.Keys; }
    var r := MostPopular(films, likes, count);
    var top := r[0].id;
    assert top == best || RanksAbove(likes, best, top);
    assert top == best || RanksAbove(likes, top, best) by {
      if Listed(r, best) {
        var k :| 0 <= k < |r| && r[k].id == best;
        assert k == 0 || RanksAbove(likes, r[0].id, r[k].id);
      }
    }
  }

  /** The ranking `FilmDbStorageTest` expects: of two films, the liked one comes first whatever the count. */
  lemma LikedFilmRanksFirst(films: map<int, FilmRow>, count: nat)
    requires films.Keys == {1, 2} && count >= 1
    ensures var r := MostPopular(films, {Like(1, 1)}, count);
      |r| == Min(count, 2) && r[0].id == 1 && (count >= 2 ==> r[1].id == 2)
  {
    var likes := {Like(1, 1)};
    assert LikedBy(likes, 1) == {1};
    assert LikedBy(likes, 2) == {};
    assert RanksAbove(likes, 1, 2);
    BestIsFirst(films, likes, count, 1);
    assert |films| == 2 by { FilmCount(films); }
  }

  /** No films, no popular films. */
  lemma NoFilmsNoneListed(likes: set<Like>, count: nat)
    ensures MostPopular(map[], likes, count) == []
    ensures FindAllFilms(map[], likes) == []
  {
  }

  class FilmDbStorage {
    /** The `films` table, by `id`. */
    var films: map<int, FilmRow>
    /** The `likes` table. */
    var likes: set<Like>
    /** The next value of the `id` identity column. */
    var nextId: int

    ghost predicate Valid()
      reads this
    {
      nextId >= 1 && forall k :: k in films ==> k < nextId
    }

    constructor ()
      ensures Valid()
      ensures films == map[] && likes == {} && nextId == 1
    {
      films := map[];
      likes := {};
      nextId := 1;
    }

    function RowOf(film: Film): FilmRow
      reads film
    {
      FilmRow(film.name, film.description, film.releaseDate, film.duration, film.rate)
    }

    /** `create`: inserts the film's columns under a generated key and sets the film's id to it. */
    method Create(film: Film) returns (saved: Film)
      requires Valid()
      modifies this, film
      ensures Valid()
      ensures saved == film && film.id == Some(old(nextId)) && old(nextId) !in old(films)
      ensures films == old(films)[old(nextId) := old(RowOf(film))]
      ensures likes == old(likes) && nextId == old(nextId) + 1
      ensures RowOf(film) == old(RowOf(film)) && film.likeFromUserId == old(film.likeFromUserId)
      ensures film.genres == old(film.genres)
    {
      var row := RowOf(film);
      var key := nextId;
      films := films[key := row];
      nextId := nextId + 1;
      film.id := Some(key);
      saved := film;
    }

    /** `update`: overwrites name, description, release date, duration and rate of the film's row; other rows stay. */
    method Update(film: Film) returns (saved: Film)
      requires Valid()
      modifies this
      ensures Valid()
      ensures saved == film
      ensures film.id.Some? && film.id.value in old(films) ==> films == old(films)[film.id.value := RowOf(film)]
      ensures !(film.id.Some? && film.id.value in old(films)) ==> films == old(films)
      ensures likes == old(likes) && nextId == old(nextId)
    {
      if film.id.Some? && film.id.value in films {
        films := films[film.id.value := RowOf(film)];
      }
      saved := film;
    }

    /** `getById`: the film with its likes, or "Film with ID %s does not exist". */
    function GetById(filmId: Option<int>): (r: Result<FilmRecord, Error>)
      reads this
      ensures r.Failure? <==> filmId.None? || filmId.value !in films
      ensures r.Failure? ==> r.error == NotFound(FilmEntity, filmId)
      ensures r.Success? ==> r.value.id == filmId.value && r.value.name == films[filmId.value].name
      ensures r.Success? ==> r.value.description == films[filmId.value].description
      ensures r.Success? ==> r.value.releaseDate == films[filmId.value].releaseDate
      ensures r.Success? ==> r.value.duration == films[filmId.value].duration
      ensures r.Success? ==> r.value.rate == films[filmId.value].rate.GetOr(0)
      ensures r.Success? ==> forall u :: u in r.value.likeFromUserId <==> Like(u, filmId.value) in likes
    {
      if filmId.Some? && filmId.value in films then Success(MapRowToFilm(films, likes, filmId.value))
      else Failure(NotFound(FilmEntity, filmId))
    }

    /** `addLike`: inserts the pair; a pair already present is a duplicate key. */
    method AddLike(filmId: int, userId: int) returns (outcome: Outcome<Error>)
      requires Valid()
      modifies this
      ensures Valid()
      ensures Like(userId, filmId) in old(likes) ==> outcome == Fail(DuplicateLike(filmId, userId)) && likes == old(likes)
      ensures Like(userId, filmId) !in old(likes) ==> outcome == Pass && likes == old(likes) + {Like(userId, filmId)}
      ensures films == old(films) && nextId == old(nextId)
    {
      if Like(userId, filmId) in likes {
        return Fail(DuplicateLike(filmId, userId));
      }
      likes := likes + {Like(userId, filmId)};
      return Pass;
    }

    /** `deleteLike`: deletes the pair if present and is silent otherwise. */
    method DeleteLike(filmId: int, userId: int)
      requires Valid()
      modifies this
      ensures Valid()
      ensures likes == old(likes) - {Like(userId, filmId)}
      ensures Like(userId, filmId) !in old(likes) ==> likes == old(likes)
      ensures films == old(films) && nextId == old(nextId)
    {
      likes := likes - {Like(userId, filmId)};
    }

    function FindAll(): (r: seq<FilmRecord>)
      reads this
      ensures r == FindAllFilms(films, likes)
      ensures |r| == |films|
    {
      FindAllFilms(films, likes)
    }

    function ShowMostPopularFilms(count: nat): (r: seq<FilmRecord>)
      reads this
      ensures r == MostPopular(films, likes, count)
      ensures |r| == Min(count, |films|)
    {
      MostPopular(films, likes, count)
    }
  }
}
