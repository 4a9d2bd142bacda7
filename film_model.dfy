/** `model/Film.java`: a film, its ordered like and genre sets and its constraints. */
module FilmModel {
  import opened Wrappers
  import opened ReleaseDates
  import opened JavaText
  import opened Ordering

  /** `model/dictionary/Genre.java`: a dictionary entry, ordered by its id alone. */
  datatype Genre = Genre(id: int, name: Option<string>)

  const MaxDescriptionLength := 200

  class Film {
    var id: Option<int>
    var name: Option<string>
    var description: Option<string>
    var releaseDate: Option<Date>
    var duration: int
    var rate: Option<int>
    /** The `TreeSet` of the ids of the users who liked the film. */
    var likeFromUserId: set<int>
    /** The `TreeSet` of genres compared by id, kept as the genre stored under each id. */
    var genres: map<int, Genre>

    /** The genre set holds at most one genre per id, stored under that id. */
    predicate Valid()
      reads this
    {
      forall k :: k in genres ==> genres[k].id == k
    }

    /** `Film.builder()...build()`: no likes and no genres yet. */
    constructor (id: Option<int>, name: Option<string>, description: Option<string>,
                 releaseDate: Option<Date>, duration: int, rate: Option<int>)
      ensures Valid()
      ensures this.id == id && this.name == name && this.description == description
      ensures this.releaseDate == releaseDate && this.duration == duration && this.rate == rate
      ensures likeFromUserId == {} && genres == map[]
    {
      this.id := id;
      this.name := name;
      this.description := description;
      this.releaseDate := releaseDate;
      this.duration := duration;
      this.rate := rate;
      this.likeFromUserId := {};
      this.genres := map[];
    }

    /** `addLikeFromUserId`: a repeated like is absorbed by the set. */
    method AddLikeFromUserId(userId: int)
      modifies this
      ensures likeFromUserId == old(likeFromUserId) + {userId}
      ensures genres == old(genres) && id == old(id) && rate == old(rate)
      ensures name == old(name) && description == old(description)
      ensures releaseDate == old(releaseDate) && duration == old(duration)
    {
      likeFromUserId := likeFromUserId + {userId};
    }

    /** `removeLikeFromUserId`. */
    method RemoveLikeFromUserId(userId: int)
      modifies this
      ensures likeFromUserId == old(likeFromUserId) - {userId}
      ensures genres == old(genres) && id == old(id) && rate == old(rate)
      ensures name == old(name) && description == old(description)
      ensures releaseDate == old(releaseDate) && duration == old(duration)
    {
      likeFromUserId := likeFromUserId - {userId};
    }

    /**
     * `addGenre`: the set compares genres by id only, so a genre whose id is
     * already present is not added, even when its name differs.
     */
    method AddGenre(genre: Genre)
      requires Valid()
      modifies this
      ensures Valid()
      ensures genre.id in old(genres) ==> genres == old(genres)
      ensures genre.id !in old(genres) ==> genres == old(genres)[genre.id := genre]
      ensures likeFromUserId == old(likeFromUserId) && id == old(id) && rate == old(rate)
      ensures name == old(name) && description == old(description)
      ensures releaseDate == old(releaseDate) && duration == old(duration)
    {
      if genre.id !in genres {
        genres := genres[genre.id := genre];
      }
    }

    /** The like set's iteration order: each user id once, ascending. */
    function LikesInOrder(): (r: seq<int>)
      reads this
      ensures |r| == |likeFromUserId|
      ensures forall i :: 0 <= i < |r| ==> r[i] in likeFromUserId
      ensures forall x :: x in likeFromUserId ==> x in r
      ensures forall i, j :: 0 <= i < j < |r| ==> r[i] < r[j]
    {
      Ascending(likeFromUserId)
    }

    /** The genre set's iteration order: each genre once, by ascending id. */
    function GenresInOrder(): (r: seq<Genre>)
      requires Valid()
      reads this
      ensures |r| == |genres|
      ensures forall i :: 0 <= i < |r| ==> r[i].id in genres && genres[r[i].id] == r[i]
      ensures forall k :: k in genres ==> genres[k] in r
      ensures forall i, j :: 0 <= i < j < |r| ==> r[i].id < r[j].id
    {
      InIdOrder(genres, Ascending(genres.Keys))
    }

    /** The bean-validation constraints on the film, other than `@NotNull` on the rating. */
    predicate SatisfiesConstraints()
      reads this
    {
      IsValidName(name) && IsValidDescription(description)
      && IsValidReleaseDate(releaseDate) && IsPositiveDuration(duration)
    }
  }

  /** The genres stored under `ids`, in that order. */
  function InIdOrder(genres: map<int, Genre>, ids: seq<int>): (r: seq<Genre>)
    requires forall k :: k in genres ==> genres[k].id == k
    requires forall i :: 0 <= i < |ids| ==> ids[i] in genres
    requires forall k :: k in genres ==> k in ids
    requires |ids| == |genres.Keys|
    requires forall i, j :: 0 <= i < j < |ids| ==> ids[i] < ids[j]
    ensures |r| == |genres|
    ensures forall i :: 0 <= i < |r| ==> r[i].id in genres && genres[r[i].id] == r[i]
    ensures forall k :: k in genres ==> genres[k] in r
    ensures forall i, j :: 0 <= i < j < |r| ==> r[i].id < r[j].id
  {
    var r := seq(|ids|, i requires 0 <= i < |ids| => genres[ids[i]]);
    assert forall i :: 0 <= i < |r| ==> r[i] == genres[ids[i]] && r[i].id == ids[i];
    forall k | k in genres ensures genres[k] in r {
      var i :| 0 <= i < |ids| && ids[i] == k;
      assert r[i] == genres[k];
    }
    r
  }

  /** `@NotBlank` on the name. */
  predicate IsValidName(name: Option<string>) {
    name.Some? && IsNotBlankConstraint(name.value)
  }

  /** `@Size(max = 200)` on the description; a missing description passes. */
  predicate IsValidDescription(description: Option<string>) {
    description.None? || |description.value| <= MaxDescriptionLength
  }

  /** `@Positive` on the duration. */
  predicate IsPositiveDuration(duration: int) {
    duration > 0
  }

  /** Descriptions of 200 characters pass and of 201 fail, whatever they contain. */
  lemma DescriptionBoundary(s: string)
    ensures |s| == 200 ==> IsValidDescription(Some(s))
    ensures |s| == 201 ==> !IsValidDescription(Some(s))
    ensures IsValidDescription(None)
  {
  }

  /** Sample names and durations: blank or missing names and non-positive durations are refused. */
  lemma ConstraintsExamples()
    ensures !IsValidName(Some("")) && !IsValidName(Some("   ")) && !IsValidName(None)
    ensures IsValidName(Some("nisi eiusmod"))
    ensures !IsPositiveDuration(0) && !IsPositiveDuration(-1) && IsPositiveDuration(100)
  {
    assert "nisi eiusmod"[0] > ' ';
  }

  /** A film fails its constraints on one bad field, and a film with good fields passes. */
  lemma SatisfiesConstraintsExamples(film: Film)
    ensures film.releaseDate == Some(Date(1895, 12, 27)) ==> !film.SatisfiesConstraints()
    ensures film.duration <= 0 ==> !film.SatisfiesConstraints()
    ensures film.name.None? ==> !film.SatisfiesConstraints()
    ensures (film.name == Some("Film") && film.description.None? && film.releaseDate == Some(CinemaBirthday)
             && film.duration == 100) ==> film.SatisfiesConstraints()
  {
    assert "Film"[0] > ' ';
  }
}
