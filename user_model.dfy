/** `model/User.java`: a user, its ordered friend set, its constraints and its table row. */
module UserModel {
  import opened Wrappers
  import opened ReleaseDates
  import opened JavaText
  import opened Ordering

  /** The columns of the `users` table other than the generated `user_id`. */
  datatype UserRow = UserRow(email: Option<string>, login: Option<string>, name: Option<string>, birthday: Option<Date>)

  /** A value of the `Map<String, Object>` handed to the insert. */
  datatype Column = TextValue(text: Option<string>) | DateValue(date: Option<Date>)

  /** `mapUserToRow`'s map: the four columns and their values, and nothing else. */
  function Columns(row: UserRow): (m: map<string, Column>)
    ensures m.Keys == {"email", "login", "user_name", "birthday"}
    ensures "id" !in m && "friends" !in m
    ensures m["email"] == TextValue(row.email) && m["login"] == TextValue(row.login)
    ensures m["user_name"] == TextValue(row.name) && m["birthday"] == DateValue(row.birthday)
  {
    map["email" := TextValue(row.email), "login" := TextValue(row.login),
        "user_name" := TextValue(row.name), "birthday" := DateValue(row.birthday)]
  }

  /** How the insert reads a column map back into a row; `None` on a missing or mistyped column. */
  function RowFromColumns(m: map<string, Column>): Option<UserRow> {
    if "email" in m && "login" in m && "user_name" in m && "birthday" in m
       && m["email"].TextValue? && m["login"].TextValue? && m["user_name"].TextValue? && m["birthday"].DateValue?
    then Some(UserRow(m["email"].text, m["login"].text, m["user_name"].text, m["birthday"].date))
    else None
  }

  lemma ColumnsRoundTrip(row: UserRow)
    ensures RowFromColumns(Columns(row)) == Some(row)
  {
  }

  class User {
    var id: Option<int>
    var email: Option<string>
    var login: Option<string>
    var name: Option<string>
    var birthday: Option<Date>
    /** The `TreeSet` of friend ids. */
    var friends: set<int>

    /** `User.builder()...build()`: no id yet and no friends. */
    constructor (email: Option<string>, login: Option<string>, name: Option<string>, birthday: Option<Date>)
      ensures this.id == None && this.friends == {}
      ensures this.email == email && this.login == login && this.name == name && this.birthday == birthday
    {
      this.id := None;
      this.email := email;
      this.login := login;
      this.name := name;
      this.birthday := birthday;
      this.friends := {};
    }

    function Row(): UserRow
      reads this
    {
      UserRow(email, login, name, birthday)
    }

    /** `mapUserToRow`: the row's four columns; neither the id nor the friends are included. */
    function MapUserToRow(): (m: map<string, Column>)
      reads this
      ensures m.Keys == {"email", "login", "user_name", "birthday"}
      ensures "id" !in m && "friends" !in m
      ensures RowFromColumns(m) == Some(Row())
    {
      ColumnsRoundTrip(Row());
      Columns(Row())
    }

    /** `addFriend`: adding an id already present changes nothing. */
    method AddFriend(friendId: int)
      modifies this
      ensures friends == old(friends) + {friendId}
      ensures id == old(id) && Row() == old(Row())
    {
      friends := friends + {friendId};
    }

    /** `removeFriend`: removes that id only. */
    method RemoveFriend(friendId: int)
      modifies this
      ensures friends == old(friends) - {friendId}
      ensures id == old(id) && Row() == old(Row())
    {
      friends := friends - {friendId};
    }

    /** The `TreeSet`'s iteration order: every friend id once, ascending. */
    function FriendsInOrder(): (r: seq<int>)
      reads this
      ensures |r| == |friends|
      ensures forall i :: 0 <= i < |r| ==> r[i] in friends
      ensures forall x :: x in friends ==> x in r
      ensures forall i, j :: 0 <= i < j < |r| ==> r[i] < r[j]
    {
      Ascending(friends)
    }
  }

  /** `@NotBlank` and `@Pattern(regexp = "\\S+")` on the login. */
  predicate IsValidLogin(login: Option<string>) {
    login.Some? && IsNotBlankConstraint(login.value) && MatchesNonSpaceRun(login.value)
  }

  /** `@NotNull` on the e-mail; its `@Email` syntax is not part of this model. */
  predicate IsPresentEmail(email: Option<string>) {
    email.Some?
  }

  /** `@Past` on the birthday, with the clock's date passed in; a missing birthday passes. */
  predicate IsPastBirthday(birthday: Option<Date>, today: Date) {
    birthday.None? || IsBefore(birthday.value, today)
  }

  /** Only `@NotNull` is modelled: a missing e-mail fails and every present one passes, the empty one too. */
  lemma EmailConstraint(email: string)
    ensures !IsPresentEmail(None)
    ensures IsPresentEmail(Some(email))
  {
  }

  /** `@Past` is strict, and a birthday that is past today is still past on any later day. */
  lemma BirthdayConstraint(birthday: Option<Date>, today: Date, later: Date)
    ensures IsPastBirthday(None, today)
    ensures !IsPastBirthday(Some(today), today)
    ensures IsPastBirthday(birthday, today) && IsBefore(today, later) ==> IsPastBirthday(birthday, later)
  {
    if birthday.Some? && IsBefore(birthday.value, today) && IsBefore(today, later) {
      IsBeforeTransitive(birthday.value, today, later);
    }
  }

  /** A valid login is non-empty and contains no whitespace. */
  lemma ValidLoginHasNoWhitespace(login: string)
    requires IsValidLogin(Some(login))
    ensures |login| > 0
    ensures forall i :: 0 <= i < |login| ==> !IsRegexSpace(login[i])
    ensures exists i :: 0 <= i < |login| && login[i] > ' '
  {
  }

  /** Conversely, a non-empty login of printable characters (none at or below U+0020) is valid. */
  lemma PrintableLoginIsValid(login: string)
    requires |login| > 0
    requires forall i :: 0 <= i < |login| ==> login[i] > ' '
    ensures IsValidLogin(Some(login))
  {
    assert login[0] > ' ';
  }

  /** The logins `UserControllerTest` uses. */
  lemma LoginExamples()
    ensures !IsValidLogin(Some("incorrect login"))
    ensures !IsValidLogin(None)
    ensures !IsValidLogin(Some(""))
    ensures IsValidLogin(Some("dolore"))
  {
    assert "incorrect login"[9] == ' ';
    PrintableLoginIsValid("dolore");
  }
}
