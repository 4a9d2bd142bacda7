/** `ReleaseDateValidator`: a release date may not precede the first public film screening. */
module ReleaseDates {
  import opened Wrappers

  /** A `LocalDate` as (year, month, day). */
  datatype Date = Date(year: int, month: int, day: int)

  /** `a.isBefore(b)`: lexicographic on (year, month, day). */
  predicate IsBefore(a: Date, b: Date) {
    a.year < b.year
    || (a.year == b.year && a.month < b.month)
    || (a.year == b.year && a.month == b.month && a.day < b.day)
  }

  /** `CINEMA_BIRTHDAY`, parsed from "1895-12-28". */
  const CinemaBirthday := Date(1895, 12, 28)

  /** `isValid`: a missing date passes; otherwise it must not be before the cinema's birthday. */
  predicate IsValidReleaseDate(value: Option<Date>) {
    value.None? || !IsBefore(value.value, CinemaBirthday)
  }

  /** `isBefore` is a strict total order on dates. */
  lemma IsBeforeTotal(a: Date, b: Date)
    ensures !IsBefore(a, a)
    ensures IsBefore(a, b) ==> !IsBefore(b, a)
    ensures a == b || IsBefore(a, b) || IsBefore(b, a)
  {
  }

  lemma IsBeforeTransitive(a: Date, b: Date, c: Date)
    requires IsBefore(a, b) && IsBefore(b, c)
    ensures IsBefore(a, c)
  {
  }

  /** Any date on or after a valid date is valid. */
  lemma ValidityIsUpwardClosed(d: Date, later: Date)
    requires IsValidReleaseDate(Some(d))
    requires !IsBefore(later, d)
    ensures IsValidReleaseDate(Some(later))
  {
    if IsBefore(later, CinemaBirthday) {
      IsBeforeTotal(later, d);
      if later != d {
        IsBeforeTransitive(d, later, CinemaBirthday);
      }
    }
  }

  /** A date is valid exactly when it is the cinema's birthday or after it. */
  lemma ValidIffOnOrAfterBirthday(d: Date)
    ensures IsValidReleaseDate(Some(d)) <==> (d == CinemaBirthday || IsBefore(CinemaBirthday, d))
  {
    IsBeforeTotal(d, CinemaBirthday);
  }

  /** The boundary cases and the dates `ValidatorTest` and `FilmControllerTest` use. */
  lemma ReleaseDateExamples()
    ensures IsValidReleaseDate(None)
    ensures IsValidReleaseDate(Some(Date(1895, 12, 28)))
    ensures !IsValidReleaseDate(Some(Date(1895, 12, 27)))
    ensures !IsValidReleaseDate(Some(Date(1890, 3, 25)))
    ensures IsValidReleaseDate(Some(Date(1967, 3, 25)))
  {
  }
}
