# Filmorate relationship core, modelled in Dafny

Filmorate is a film-rating service. Users befriend each other and like films. This project models its relationship logic and proves properties about it:

- **The friendship state machine.** A friendship row is `(user_id, friend_id, status)` with status `REQUESTED` or `APPROVED`, and the table's primary key is `(user_id, friend_id)`. `addFriend` and `deleteFriend` are modelled as the statements they execute: the pair lookup, the bulk status `UPDATE`, the insert and the delete.
- **The like set and the popularity ranking.** `ORDER BY COUNT(likes) DESC, film_id DESC LIMIT n`.
- **The user queries.** `findAll`, `getById`, `showFriends` and `showCommonFriends`, each in descending user id order.
- **The service layer.** The services look entities up before they change anything. The user service defaults a display name to the login.
- **The in-memory storages.** Each assigns ids from a counter and rejects duplicate and missing ids.
- **The model-level rules.** The release-date cutoff, the login and description constraints, and the ordered sets of likes, friends and genres.

## How the model is built

The database tables are the fields of two classes:

- `UserDb.UserDbStorage` holds `users` as a map from id to row, `friendship` as a set of rows, and the next identity value.
- `FilmDb.FilmDbStorage` holds `films` as a map, `likes` as a set of `(user_id, film_id)` pairs, and the next identity value.

Statements that change a table are methods. Their `modifies` clauses name the storage, and their `ensures` clauses state the whole new state.

The two friendship operations are stated twice:

- once as pure step functions over the table (`Friendships.AddFriendStep`, `Friendships.DeleteFriendStep`), which the lemmas reason about;
- once as methods that run one statement at a time (`UserDb.UserDbStorage.AddFriend`, `UserDb.UserDbStorage.DeleteFriend`), each proved equal to its step function.

The queries are functions of the tables. Their results are values (`UserRecord`, `FilmRecord`) rather than fresh Java objects.

`User`, `Film`, the two in-memory storages and the shared film-id counter are classes, because their methods update fields in place.

A Java `null` is `None`. Ids are unbounded integers.

The code behaves as follows where a reader might expect otherwise:

- `deleteLike` of an absent like is a silent no-op. It does not raise NotFound.
- Neither `addLike` nor `deleteLike` touches the film's `rate`.
- `deleteFriend` with no forward row raises the same "UserId %s and friendId %s already in friendship" ValidationException as `addFriend`.
- The pair lookup `findFriendRequest` is `user_id IN (u, f) AND friend_id IN (f, u)`. So rows `(u, u)` and `(f, f)` count toward its size.
- Both bulk updates are `... WHERE user_id = friendId`. So they re-status every row of `friendId`, not only its row for `userId`.

The bean-validation predicates (`UserModel.IsValidLogin`, `UserModel.IsPresentEmail`, `UserModel.IsPastBirthday`, `ReleaseDates.IsValidReleaseDate`, `FilmModel.IsValidName`, `FilmModel.IsValidDescription`, `FilmModel.IsPositiveDuration` and `FilmModel.Film.SatisfiesConstraints`) are the constraints themselves. The lemmas listed beside them below state what each accepts and rejects.

## Model

| member | source | states |
|---|---|---|
| Errors.UserNotFoundMessage | src/main/java/ru/yandex/practicum/filmorate/dao/UserDbStorage.java:101-102 | an unknown user id -1 is reported as "User with ID -1 does not exist", an EntityNotFoundException |
| Errors.FilmNotFoundMessage | src/main/java/ru/yandex/practicum/filmorate/dao/FilmDbStorage.java:82-83 | an unknown film id -2 is reported as "Film with ID -2 does not exist" |
| Errors.Message | src/main/java/ru/yandex/practicum/filmorate/dao/UserDbStorage.java:116-137 | every failure carries the source's own message except the uncaught duplicate key of the friendship insert |
| Errors.FriendshipMessage | src/main/java/ru/yandex/practicum/filmorate/dao/UserDbStorage.java:117-119 | the friendship validation failure for users 1 and 2 reads "UserId 1 and friendId 2 already in friendship", a ValidationException |
| Errors.DuplicateLikeMessage | src/main/java/ru/yandex/practicum/filmorate/dao/FilmDbStorage.java:93-98 | a repeated like of user 4 on film 3 reads "Like on filmId 3 from userId 4 already exist", a DuplicateKeyException |
| Ordering.Ranked | src/main/java/ru/yandex/practicum/filmorate/dao/UserDbStorage.java:183 | the ids of a set in `ORDER BY weight DESC, id DESC` order: every id exactly once, each one before all that follow it |
| Ordering.RankedUnique | src/main/java/ru/yandex/practicum/filmorate/dao/UserDbStorage.java:183 | the ordering is total, so any sequence listing the set once in that order is `Ranked`'s |
| Ordering.Descending | src/main/java/ru/yandex/practicum/filmorate/dao/UserDbStorage.java:183 | `ORDER BY user_id DESC`: the set's ids, each once, strictly decreasing |
| Ordering.Ascending | src/main/java/ru/yandex/practicum/filmorate/model/User.java:33 | the iteration order of a `TreeSet` of ids: each once, strictly increasing |
| Ordering.Top | src/main/java/ru/yandex/practicum/filmorate/dao/FilmDbStorage.java:118-128 | `LIMIT n` of that order: min(n, size) ids, in order, and every id left out ranks after every id kept |
| Ordering.ValuesInKeyOrder | src/main/java/ru/yandex/practicum/filmorate/storage/user/InMemoryUserStorage.java:21-24 | the values of a map, one per key, in ascending key order: the i-th value is the one stored under the i-th smallest key; as many values as entries, each stored value present |
| ReleaseDates.IsBeforeTotal | src/main/java/ru/yandex/practicum/filmorate/validator/ReleaseDateValidator.java:12 | the date order used by `isBefore` is irreflexive, asymmetric and total |
| ReleaseDates.IsBeforeTransitive | src/main/java/ru/yandex/practicum/filmorate/validator/ReleaseDateValidator.java:12 | the date order is transitive |
| ReleaseDates.ValidIffOnOrAfterBirthday | src/main/java/ru/yandex/practicum/filmorate/validator/ReleaseDateValidator.java:8-12 | a present date is valid exactly when it is 1895-12-28 or later (the bound is inclusive) |
| ReleaseDates.ValidityIsUpwardClosed | src/main/java/ru/yandex/practicum/filmorate/validator/ReleaseDateValidator.java:12 | any date on or after a valid date is valid |
| ReleaseDates.ReleaseDateExamples | src/test/java/ru/yandex/practicum/filmorate/validator/ValidatorTest.java:20-28 | a missing date and 1895-12-28 and 1967-03-25 are valid; 1895-12-27 and 1890-03-25 are not |
| UserModel.Columns | src/main/java/ru/yandex/practicum/filmorate/model/User.java:43-50 | the row map has exactly the keys email, login, user_name and birthday, holding the user's values; no id and no friends |
| UserModel.ColumnsRoundTrip | src/main/java/ru/yandex/practicum/filmorate/model/User.java:43-50 | reading the four columns back gives the user's row |
| UserModel.User.constructor | src/main/java/ru/yandex/practicum/filmorate/model/User.java:17-33 | a user with the given fields, no id and no friends |
| UserModel.User.MapUserToRow | src/main/java/ru/yandex/practicum/filmorate/model/User.java:43-50 | the columns the insert stores: exactly the four keys, and they read back as the user's own fields |
| UserModel.User.AddFriend | src/main/java/ru/yandex/practicum/filmorate/model/User.java:35-37 | `friends` gains the id (adding one already present changes nothing); nothing else changes |
| UserModel.User.RemoveFriend | src/main/java/ru/yandex/practicum/filmorate/model/User.java:39-41 | `friends` loses exactly that id; nothing else changes |
| UserModel.User.FriendsInOrder | src/main/java/ru/yandex/practicum/filmorate/model/User.java:33 | the friend ids each once, in ascending order |
| UserModel.ValidLoginHasNoWhitespace | src/main/java/ru/yandex/practicum/filmorate/model/User.java:23-25 | a valid login is non-empty, has no whitespace character and has a character above the space |
| UserModel.PrintableLoginIsValid | src/main/java/ru/yandex/practicum/filmorate/model/User.java:23-25 | a non-empty login of characters above the space is valid |
| UserModel.LoginExamples | src/test/java/ru/yandex/practicum/filmorate/controller/UserControllerTest.java:209-222 | "incorrect login", a missing login and the empty login are rejected; "dolore" is accepted |
| UserModel.EmailConstraint | src/main/java/ru/yandex/practicum/filmorate/model/User.java:19-21 | a missing e-mail is rejected and every present one accepted (only `@NotNull` is modelled) |
| UserModel.BirthdayConstraint | src/main/java/ru/yandex/practicum/filmorate/model/User.java:29-31 | a missing birthday passes, today's date is not past, and a birthday past today is past on every later day |
| FilmModel.Film.constructor | src/main/java/ru/yandex/practicum/filmorate/model/Film.java:19-37 | a film with the given fields and empty like and genre sets |
| FilmModel.Film.AddLikeFromUserId | src/main/java/ru/yandex/practicum/filmorate/model/Film.java:42-44 | the like set gains the id (idempotent); id, name, description, release date, duration, rate and genres are unchanged |
| FilmModel.Film.RemoveLikeFromUserId | src/main/java/ru/yandex/practicum/filmorate/model/Film.java:46-48 | the like set loses exactly that id; id, name, description, release date, duration, rate and genres are unchanged |
| FilmModel.Film.AddGenre | src/main/java/ru/yandex/practicum/filmorate/model/Film.java:50-52 | a genre whose id is already present leaves the genres unchanged (the stored element is kept); otherwise it is added under its id; every other field is unchanged |
| FilmModel.Film.LikesInOrder | src/main/java/ru/yandex/practicum/filmorate/model/Film.java:36 | the liking user ids each once, ascending |
| FilmModel.Film.GenresInOrder | src/main/java/ru/yandex/practicum/filmorate/model/Film.java:37 | the genres each once, in ascending genre id order |
| FilmModel.DescriptionBoundary | src/main/java/ru/yandex/practicum/filmorate/model/Film.java:25-26 | a description of 200 characters is valid, one of 201 is not, a missing one is valid |
| FilmModel.ConstraintsExamples | src/main/java/ru/yandex/practicum/filmorate/model/Film.java:22-33 | an empty, blank or missing name is rejected and a non-blank one accepted; durations 0 and -1 are rejected and 100 accepted |
| FilmModel.SatisfiesConstraintsExamples | src/main/java/ru/yandex/practicum/filmorate/model/Film.java:22-33 | a film with a release date before 1895-12-28, a non-positive duration or no name fails its constraints; one with good fields passes |
| Friendships.SetStatusOf | src/main/java/ru/yandex/practicum/filmorate/dao/UserDbStorage.java:122-129 | `UPDATE ... WHERE user_id = user`: rows of other users are untouched and every key of that user is present with the new status only |
| Friendships.FriendIds | src/main/java/ru/yandex/practicum/filmorate/dao/UserDbStorage.java:236-243 | v is listed by u exactly when u has a row for v, of either status |
| Friendships.PairHoldsKeys | src/main/java/ru/yandex/practicum/filmorate/dao/UserDbStorage.java:224-234 | the pair lookup holds exactly the stored rows of both directions between the pair, whatever their status, and beyond them only a self row (u,u) or (f,f) |
| Friendships.PairRows | src/main/java/ru/yandex/practicum/filmorate/dao/UserDbStorage.java:224-234 | the pair lookup returns only stored rows, every row between the pair, and otherwise only self rows |
| Friendships.AddFriendStep | src/main/java/ru/yandex/practicum/filmorate/dao/UserDbStorage.java:106-141 | `addFriend` as written succeeds only when u had no row for f, and then u has one; it fails only with the validation error (table unchanged) or the duplicate key; rows of users other than u and f are untouched |
| Friendships.DeleteFriendStep | src/main/java/ru/yandex/practicum/filmorate/dao/UserDbStorage.java:143-174 | `deleteFriend` as written fails exactly when u has no row for f, changing nothing; on a keyed table it leaves u with no row for f; rows of users other than u and f are untouched |
| Friendships.FriendIdsOfSetStatus | src/main/java/ru/yandex/practicum/filmorate/dao/UserDbStorage.java:122-129 | a status update changes nobody's friend list |
| Friendships.AddFriendRequestsWhenPairEmpty | src/main/java/ru/yandex/practicum/filmorate/dao/UserDbStorage.java:130-137 | with no row between the pair, exactly (u, f, REQUESTED) is inserted: u lists f and f's list is unchanged |
| Friendships.AddFriendRejectsIff | src/main/java/ru/yandex/practicum/filmorate/dao/UserDbStorage.java:117-119 | the "already in friendship" error is raised exactly when the lookup has two rows or u's request, and then the table is unchanged |
| Friendships.AddFriendConfirms | src/main/java/ru/yandex/practicum/filmorate/dao/UserDbStorage.java:120-137 | with one row and no request of u's, every row of f becomes APPROVED and (u, f, APPROVED) is inserted; with u's approved row already present the insert fails after the update |
| Friendships.AddFriendTwiceFails | src/main/java/ru/yandex/practicum/filmorate/dao/UserDbStorage.java:117-137 | repeating a successful `addFriend` of the same pair is rejected and changes nothing |
| Friendships.MutualConfirmation | src/test/java/ru/yandex/practicum/filmorate/dao/UserDbStorageTest.java:271-286 | u's request followed by f's `addFriend` gives two approved rows and each lists the other |
| Friendships.DeleteRequested | src/main/java/ru/yandex/practicum/filmorate/dao/UserDbStorage.java:154-155 | u's pending request is deleted and nothing else; u loses f and every other user's list is unchanged |
| Friendships.DeleteApprovedDemotes | src/main/java/ru/yandex/practicum/filmorate/dao/UserDbStorage.java:157-167 | u's approved row is deleted and every row of f becomes REQUESTED; u no longer lists f and f's list is unchanged |
| Friendships.DeleteFailsIff | src/main/java/ru/yandex/practicum/filmorate/dao/UserDbStorage.java:168-170 | `deleteFriend` fails exactly when u has no row for f, with the same "already in friendship" error, and the table is unchanged |
| Friendships.SetStatusKeepsKeyUnique | src/main/java/ru/yandex/practicum/filmorate/dao/UserDbStorage.java:122-129 | a status update keeps the primary key |
| Friendships.AddFriendPreservesKeyUnique | src/main/java/ru/yandex/practicum/filmorate/dao/UserDbStorage.java:106-141 | `addFriend` keeps the primary key (user_id, friend_id) |
| Friendships.DeleteFriendPreservesKeyUnique | src/main/java/ru/yandex/practicum/filmorate/dao/UserDbStorage.java:143-174 | `deleteFriend` keeps the primary key |
| Friendships.AddFriendIntendedProperties | src/main/java/ru/yandex/practicum/filmorate/dao/UserDbStorage.java:117-137 | the corrected `addFriend` fails exactly when u already has a row for f, keeps the key, touches only the pair's rows, and approves both rows on confirmation |
| Friendships.AddFriendStepIntended | src/main/java/ru/yandex/practicum/filmorate/dao/UserDbStorage.java:117-137 | the corrected `addFriend` fails exactly when u already has a row for f, changing nothing; on success u has a row for f; only the rows between u and f change |
| Friendships.DeleteFriendIntendedProperties | src/main/java/ru/yandex/practicum/filmorate/dao/UserDbStorage.java:154-170 | the corrected `deleteFriend` fails exactly when u has no row for f, keeps the key, touches only the pair's rows, removes u's row and keeps whether f lists u |
| Friendships.DeleteFriendStepIntended | src/main/java/ru/yandex/practicum/filmorate/dao/UserDbStorage.java:154-170 | the corrected `deleteFriend` fails exactly when u has no row for f, changing nothing; only the rows between u and f change |
| Friendships.ConfirmApprovesUnrelatedRequest | src/main/java/ru/yandex/practicum/filmorate/dao/UserDbStorage.java:122-129 | {(2,1,R), (2,3,R)} after `addFriend(1, 2)` is {(2,1,A), (2,3,A), (1,2,A)}; the corrected step keeps (2,3,R) |
| Friendships.DemoteDemotesUnrelatedFriendship | src/main/java/ru/yandex/practicum/filmorate/dao/UserDbStorage.java:160-167 | deleting 1-2 among mutual friendships 1-2 and 2-3 leaves 2's row for 3 REQUESTED while 3's stays APPROVED; the corrected step keeps (2,3,A) |
| Friendships.SelfRequestCountsAsRequest | src/main/java/ru/yandex/practicum/filmorate/dao/UserDbStorage.java:224-234 | after `addFriend(1, 1)`, `addFriend(1, 2)` inserts (1,2,APPROVED) though 2 never asked; the corrected step inserts a request |
| UserDb.Records | src/main/java/ru/yandex/practicum/filmorate/dao/UserDbStorage.java:31-48 | the records of a set of user ids: each once, with its stored columns and friend ids, highest id first |
| UserDb.ListedIdsAreDescending | src/main/java/ru/yandex/practicum/filmorate/dao/UserDbStorage.java:31-48 | a listing's ids are exactly the `ORDER BY user_id DESC` order of the set |
| UserDb.ListsUsersUnique | src/main/java/ru/yandex/practicum/filmorate/dao/UserDbStorage.java:31-48 | two listings of the same users are equal: each query has one answer |
| UserDb.UserDbStorage.constructor | src/main/java/ru/yandex/practicum/filmorate/dao/UserDbStorage.java:24-29 | empty tables, identity starting at 1 |
| UserDb.UserDbStorage.Create | src/main/java/ru/yandex/practicum/filmorate/dao/UserDbStorage.java:50-61 | the row of `mapUserToRow` is stored under a fresh generated key, the user gets that id and the friendship table is unchanged |
| UserDb.UserDbStorage.Update | src/main/java/ru/yandex/practicum/filmorate/dao/UserDbStorage.java:63-83 | the four columns of the row with the user's id are overwritten; with no such row nothing changes |
| UserDb.UserDbStorage.GetById | src/main/java/ru/yandex/practicum/filmorate/dao/UserDbStorage.java:85-104 | fails with NotFound exactly for a missing or null id; otherwise the stored row with exactly the ids the user has rows for |
| UserDb.UserDbStorage.FindAll | src/main/java/ru/yandex/practicum/filmorate/dao/UserDbStorage.java:31-48 | every user once, with columns and friend ids, highest id first |
| UserDb.UserDbStorage.ShowFriends | src/main/java/ru/yandex/practicum/filmorate/dao/UserDbStorage.java:176-196 | exactly the existing users u has a row for, of either status, highest id first, each with its columns; a single listed user carries its own friend ids, and with several listed none carries any (the key-set filter) |
| UserDb.UserDbStorage.ShowCommonFriends | src/main/java/ru/yandex/practicum/filmorate/dao/UserDbStorage.java:198-222 | exactly the existing users both list, highest id first, each with its columns; friend ids only when one user is listed, as for `showFriends` |
| UserDb.OneShownIsListed | src/main/java/ru/yandex/practicum/filmorate/dao/UserDbStorage.java:189-193 | a friend query that lists one user returns it exactly as `findAll` would, its friend ids included |
| UserDb.SeveralShownHaveNoFriends | src/main/java/ru/yandex/practicum/filmorate/dao/UserDbStorage.java:189-193 | a friend query that lists two users returns both with no friend ids |
| UserDb.UserDbStorage.AddFriend | src/main/java/ru/yandex/practicum/filmorate/dao/UserDbStorage.java:106-141 | the table and outcome are `AddFriendStep` of the old table (statement by statement); users unchanged; the primary key is kept |
| UserDb.UserDbStorage.DeleteFriend | src/main/java/ru/yandex/practicum/filmorate/dao/UserDbStorage.java:143-174 | the table and outcome are `DeleteFriendStep` of the old table; users unchanged; the primary key is kept |
| FilmDb.LikedBy | src/main/java/ru/yandex/practicum/filmorate/dao/FilmDbStorage.java:145-153 | u is in the like set of a film exactly when the pair (u, film) is in `likes` |
| FilmDb.ShowLikeFromUserId | src/main/java/ru/yandex/practicum/filmorate/dao/FilmDbStorage.java:145-153 | the liking users of a film, each once, highest id first |
| FilmDb.TopIds | src/main/java/ru/yandex/practicum/filmorate/dao/FilmDbStorage.java:118-128 | min(count, #films) film ids, by like count descending then id descending, every film left out ranking below every one returned |
| FilmDb.MostPopular | src/main/java/ru/yandex/practicum/filmorate/dao/FilmDbStorage.java:117-128 | min(count, #films) decorated films, ordered by like count descending then id descending, and every film not returned ranks below all returned |
| FilmDb.FilmsDescending | src/main/java/ru/yandex/practicum/filmorate/dao/FilmDbStorage.java:26-34 | the records of a set of film ids: each once, decorated, highest id first |
| FilmDb.FindAllFilms | src/main/java/ru/yandex/practicum/filmorate/dao/FilmDbStorage.java:26-34 | every film once, decorated with its likes, highest id first |
| FilmDb.LikeInsertedIsListed | src/main/java/ru/yandex/practicum/filmorate/dao/FilmDbStorage.java:87-101 | after inserting a like, the film's like set gains that user and other films' sets are unchanged |
| FilmDb.LikeDeletedIsUnlisted | src/main/java/ru/yandex/practicum/filmorate/dao/FilmDbStorage.java:103-115 | after deleting a like, the film's like set loses that user and other films' sets are unchanged |
| FilmDb.TwoUsersTwoLikes | src/test/java/ru/yandex/practicum/filmorate/dao/FilmDbStorageTest.java:118-144 | likes from two distinct users give a two-element like set and a count of 2 |
| FilmDb.BestIsFirst | src/main/java/ru/yandex/practicum/filmorate/dao/FilmDbStorage.java:117-128 | a film ranking above every other film is the first one returned, for any positive count |
| FilmDb.LikedFilmRanksFirst | src/test/java/ru/yandex/practicum/filmorate/dao/FilmDbStorageTest.java:189-201 | with films 1 and 2 and one like on film 1, film 1 comes first and film 2 second, though its id is higher |
| FilmDb.NoFilmsNoneListed | src/main/java/ru/yandex/practicum/filmorate/dao/FilmDbStorage.java:117-128 | with no films, the popularity query and `findAll` return empty lists |
| FilmDb.FilmDbStorage.constructor | src/main/java/ru/yandex/practicum/filmorate/dao/FilmDbStorage.java:19-24 | empty tables, identity starting at 1 |
| FilmDb.FilmDbStorage.Create | src/main/java/ru/yandex/practicum/filmorate/dao/FilmDbStorage.java:36-47 | the film's columns are stored under a fresh generated key and the film gets that id; likes unchanged |
| FilmDb.FilmDbStorage.Update | src/main/java/ru/yandex/practicum/filmorate/dao/FilmDbStorage.java:49-71 | the name, description, release date, duration and rate of the film's row are overwritten and other films untouched; with no such row nothing changes |
| FilmDb.FilmDbStorage.GetById | src/main/java/ru/yandex/practicum/filmorate/dao/FilmDbStorage.java:73-85 | fails with NotFound exactly for a missing or null id; otherwise the film's id, name, description, release date and duration, its rate with NULL read as 0, and exactly the users who liked it |
| FilmDb.FilmDbStorage.AddLike | src/main/java/ru/yandex/practicum/filmorate/dao/FilmDbStorage.java:87-101 | a repeated like fails with DuplicateLike and changes nothing; otherwise exactly that pair is added |
| FilmDb.FilmDbStorage.DeleteLike | src/main/java/ru/yandex/practicum/filmorate/dao/FilmDbStorage.java:103-115 | exactly that pair is removed; an absent pair is a silent no-op |
| FilmDb.FilmDbStorage.FindAll | src/main/java/ru/yandex/practicum/filmorate/dao/FilmDbStorage.java:26-34 | every film, highest id first, as `FindAllFilms` lists them |
| FilmDb.FilmDbStorage.ShowMostPopularFilms | src/main/java/ru/yandex/practicum/filmorate/dao/FilmDbStorage.java:117-128 | the popularity ranking of the current tables, of length min(count, #films) |
| InMemoryUsers.InMemoryDefaultName | src/main/java/ru/yandex/practicum/filmorate/storage/user/InMemoryUserStorage.java:54-59 | only a null name is replaced by the login; any present name is kept |
| InMemoryUsers.BlankNameIsKept | src/main/java/ru/yandex/practicum/filmorate/storage/user/InMemoryUserStorage.java:54-59 | a blank name is kept here, unlike in the service; a null name becomes the login |
| InMemoryUsers.InMemoryUserStorage.constructor | src/main/java/ru/yandex/practicum/filmorate/storage/user/InMemoryUserStorage.java:18-19 | counter 1, empty map |
| InMemoryUsers.InMemoryUserStorage.ChangeEmptyName | src/main/java/ru/yandex/practicum/filmorate/storage/user/InMemoryUserStorage.java:54-59 | the name becomes the default of the old name and login; no other field changes |
| InMemoryUsers.InMemoryUserStorage.Create | src/main/java/ru/yandex/practicum/filmorate/storage/user/InMemoryUserStorage.java:26-39 | an id already used as a key is rejected with ValidationException and nothing changes; otherwise the name is defaulted, the user gets id = userId, is stored under it and userId grows by 1; every key stays below userId; e-mail, login, birthday and friends are unchanged |
| InMemoryUsers.InMemoryUserStorage.Update | src/main/java/ru/yandex/practicum/filmorate/storage/user/InMemoryUserStorage.java:41-52 | a missing id is rejected with UpdateException and nothing changes; otherwise the name is defaulted and only that entry is replaced; id, e-mail, login, birthday and friends are unchanged in both cases |
| InMemoryUsers.InMemoryUserStorage.FindAll | src/main/java/ru/yandex/practicum/filmorate/storage/user/InMemoryUserStorage.java:21-24 | exactly the stored users, as many as the map has entries, the i-th under the i-th smallest key |
| InMemoryFilms.FilmIdCounter.constructor | src/main/java/ru/yandex/practicum/filmorate/storage/film/InMemoryFilmStorage.java:18 | the shared counter starts at 1 |
| InMemoryFilms.FilmIdCounter.GetNextId | src/main/java/ru/yandex/practicum/filmorate/storage/film/InMemoryFilmStorage.java:49-51 | returns the counter, then increments it |
| InMemoryFilms.InMemoryFilmStorage.constructor | src/main/java/ru/yandex/practicum/filmorate/storage/film/InMemoryFilmStorage.java:18-19 | an empty map over the given shared counter |
| InMemoryFilms.InMemoryFilmStorage.Create | src/main/java/ru/yandex/practicum/filmorate/storage/film/InMemoryFilmStorage.java:26-36 | an id already used as a key is rejected with ValidationException and nothing changes; otherwise the film gets the counter's value, is stored under it and the counter advances; every key stays below the counter; every other field of the film is unchanged |
| InMemoryFilms.InMemoryFilmStorage.Update | src/main/java/ru/yandex/practicum/filmorate/storage/film/InMemoryFilmStorage.java:38-47 | a missing id is rejected with UpdateException and nothing changes; otherwise only that entry is replaced |
| InMemoryFilms.InMemoryFilmStorage.FindAll | src/main/java/ru/yandex/practicum/filmorate/storage/film/InMemoryFilmStorage.java:21-24 | exactly the stored films, as many as the map has entries, the i-th under the i-th smallest key |
| InMemoryFilms.ValidSurvivesCounterAdvance | src/main/java/ru/yandex/practicum/filmorate/storage/film/InMemoryFilmStorage.java:18 | a storage stays consistent when another storage advances the shared counter |
| InMemoryFilms.CreateInTwoStorages | src/main/java/ru/yandex/practicum/filmorate/storage/film/InMemoryFilmStorage.java:18-51 | two storages sharing the static counter assign distinct ids |
| UserServices.ServiceDefaultName | src/main/java/ru/yandex/practicum/filmorate/service/UserService.java:69-74 | a null or blank name becomes the login; a non-blank name is kept |
| UserServices.DefaultNameIdempotent | src/main/java/ru/yandex/practicum/filmorate/service/UserService.java:69-74 | defaulting the name twice is the same as once |
| UserServices.DefaultNameExamples | src/test/java/ru/yandex/practicum/filmorate/controller/UserControllerTest.java:320-331 | null, empty and whitespace-only names become the login; "Nick" is kept |
| UserServices.ResolvePair | src/main/java/ru/yandex/practicum/filmorate/service/UserService.java:42-44 | both users are resolved, the first one first: the NotFound names the first missing id |
| UserServices.UserService.constructor | src/main/java/ru/yandex/practicum/filmorate/service/UserService.java:17-20 | the service over the given storage |
| UserServices.UserService.ChangeEmptyName | src/main/java/ru/yandex/practicum/filmorate/service/UserService.java:69-74 | the name becomes the service default of the old name and login; nothing else changes |
| UserServices.UserService.Create | src/main/java/ru/yandex/practicum/filmorate/service/UserService.java:26-29 | the name is defaulted, then the user's e-mail, login, defaulted name and birthday are stored under the next id, which then grows by 1; the friendship table and the user's other fields are unchanged |
| UserServices.UserService.Update | src/main/java/ru/yandex/practicum/filmorate/service/UserService.java:31-36 | an unknown or null id fails with NotFound and nothing is stored; otherwise the row under the id becomes the user's e-mail, login, defaulted name and birthday; the next id, the friendship table and the user's other fields are unchanged |
| UserServices.UserService.GetUserById | src/main/java/ru/yandex/practicum/filmorate/service/UserService.java:38-40 | the storage lookup: NotFound exactly for a missing or null id |
| UserServices.UserService.FindAll | src/main/java/ru/yandex/practicum/filmorate/service/UserService.java:22-24 | every user once, highest id first |
| UserServices.UserService.AddFriend | src/main/java/ru/yandex/practicum/filmorate/service/UserService.java:42-47 | an unknown user leaves the table unchanged with NotFound; otherwise the storage's `addFriend` step |
| UserServices.UserService.DeleteFriend | src/main/java/ru/yandex/practicum/filmorate/service/UserService.java:49-54 | an unknown user leaves the table unchanged with NotFound; otherwise the storage's `deleteFriend` step |
| UserServices.UserService.ShowFriends | src/main/java/ru/yandex/practicum/filmorate/service/UserService.java:56-60 | NotFound exactly for an unknown user; otherwise the users it lists, decorated as the storage's `showFriends` does |
| UserServices.UserService.ShowCommonFriends | src/main/java/ru/yandex/practicum/filmorate/service/UserService.java:62-67 | NotFound for the first unknown user; otherwise the users both list, decorated as the storage's `showCommonFriends` does |
| FilmServices.ResolveLike | src/main/java/ru/yandex/practicum/filmorate/service/FilmService.java:47-50 | the user is resolved before the film: with both missing the user's NotFound is raised |
| FilmServices.UnknownUserReportedFirst | src/main/java/ru/yandex/practicum/filmorate/service/FilmService.java:49-50 | with both ids unknown, the error and its message are the user's |
| FilmServices.FilmService.constructor | src/main/java/ru/yandex/practicum/filmorate/service/FilmService.java:21-26 | the service over the given storages |
| FilmServices.FilmService.Create | src/main/java/ru/yandex/practicum/filmorate/service/FilmService.java:32-34 | delegates directly: the film's columns are stored under the next id, which grows by 1; the likes and the film's other fields are unchanged |
| FilmServices.FilmService.Update | src/main/java/ru/yandex/practicum/filmorate/service/FilmService.java:36-41 | an unknown or null id fails with NotFound and nothing changes; otherwise the row is overwritten; the likes and the next id are unchanged |
| FilmServices.FilmService.GetFilmById | src/main/java/ru/yandex/practicum/filmorate/service/FilmService.java:43-45 | the storage lookup: NotFound exactly for a missing or null id |
| FilmServices.FilmService.FindAll | src/main/java/ru/yandex/practicum/filmorate/service/FilmService.java:28-30 | every film, highest id first |
| FilmServices.FilmService.AddLike | src/main/java/ru/yandex/practicum/filmorate/service/FilmService.java:47-53 | an unknown user or film leaves the likes unchanged with NotFound (user first); otherwise the storage's `addLike`; the films and the next id are unchanged |
| FilmServices.FilmService.DeleteLike | src/main/java/ru/yandex/practicum/filmorate/service/FilmService.java:55-61 | an unknown user or film leaves the likes unchanged with NotFound (user first); otherwise the storage's `deleteLike`; the films and the next id are unchanged |
| FilmServices.FilmService.ShowMostPopularFilms | src/main/java/ru/yandex/practicum/filmorate/service/FilmService.java:63-65 | delegates directly to the popularity ranking |

## Left out

- Controllers, `ExceptionApiHandler`, Swagger and logging configuration: HTTP routing, status mapping and log output.
- The `dao/utils/*Mapping` classes are not modelled; this is JDBC `ResultSet` marshalling. A query result is a value that carries the row's columns, and, for users, the ids that user lists. `FriendshipMapping::mapRowToAllFriendship` is not part of this model: `FriendshipMapping.java` does not declare it. The model reads it as mapping one friendship row to the one-entry map from its `user_id` to the row. That is the reading under which `findAll` attaches every user's friend ids.
- `GenreDbStorage`, `MpaDbStorage`, `GenreService` and `MpaService` are not modelled: they are single SELECTs over pre-seeded tables.
- MPA ratings and the storage of a film's genres are not modelled: `FilmDbStorage` stores neither. A film's genre set exists only as the in-memory `Film.genres`.
- The `@Email` syntax check is not modelled, because it is a library regular expression. Only "present" (`@NotNull`) is modelled.
- `@Past` on the birthday needs the wall clock. `UserModel.IsPastBirthday` takes today's date as a parameter.
- Foreign keys: the model does not check that a like or friendship row names existing users and films. The services check that before calling storage.
- Reading a user or film row whose date column is NULL throws a NullPointerException in the source. The model reads it as `None` instead.
- `showMostPopularFilms` with a null or negative count: the model takes `count: nat`.
- Transactions and concurrency: the source has none. A failing insert after the bulk `UPDATE` in `addFriend` leaves the update applied (`Errors.DuplicateFriendshipKey`).
- `Errors.Message` of `DuplicateFriendshipKey` is `None`: the text is the database driver's.
- The in-memory storages key a `Map<Integer, ...>` by `Long` ids, which does not type-check as written. The model uses one integer id type.
- InMemoryUsers.InMemoryUserStorage.FindAll: the values come in ascending key order, though `HashMap.values()` has no specified order. The contract fixes that order, which the source does not promise.
- InMemoryFilms.InMemoryFilmStorage.FindAll: the same as for the user storage: the contract fixes ascending key order, which the source does not promise.
- UserDb.UserDbStorage.ShowFriends: the friend ids are attached through the filter `f.keySet().equals(tmpUserMap.keySet())`, which compares one row's map with the ids of the whole result. Under the one-entry reading above it passes only when exactly one user is listed. The model therefore gives a lone listed user its friend ids and gives none to the users of a longer list. Under another reading of the missing mapping the decoration would differ.
- UserDb.UserDbStorage.ShowCommonFriends: the same filter and the same reading as for `showFriends`.
- FilmModel.IsValidDescription counts characters where Java counts UTF-16 code units.
- FilmDb.MapRowToFilm has no contract of its own, because it is the decoration itself. `FilmDb.FilmDbStorage.GetById` states every field it produces, the NULL rate read as 0 included, and `FilmDb.LikedBy` states the likes.
- The storages' effect on the Java objects they are given is modelled only for `create`, which sets the id. Query results are values, so aliasing between returned objects is not captured.

## Findings

The friendship storage methods reproduce the statements as written. `Friendships.AddFriendStepIntended` and `Friendships.DeleteFriendStepIntended` state what the statements evidently mean. They touch only the two rows between the pair, and the lemmas below prove that about them. The as-written steps also keep the primary key, and the intended demotion of the counterpart's row on deletion is kept in both versions.

| source | as written | input that shows it | evidently intended | confidence | as-written member | corrected member |
|---|---|---|---|---|---|---|
| src/main/java/ru/yandex/practicum/filmorate/dao/UserDbStorage.java:122-129 | the confirmation sets every row of `friendId` to APPROVED | rows (2,1,R), (2,3,R); `addFriend(1, 2)` also approves 2's unanswered request to 3 | approve only 2's row for 1 | not executed | Friendships.ConfirmApprovesUnrelatedRequest | Friendships.AddFriendIntendedProperties |
| src/main/java/ru/yandex/practicum/filmorate/dao/UserDbStorage.java:160-167 | deleting an approved friendship sets every row of `friendId` to REQUESTED | mutual friendships 1-2 and 2-3; `deleteFriend(1, 2)` leaves (2,3,R) beside (3,2,A) | demote only 2's row for 1 | not executed | Friendships.DemoteDemotesUnrelatedFriendship | Friendships.DeleteFriendIntendedProperties |
| src/main/java/ru/yandex/practicum/filmorate/dao/UserDbStorage.java:224-234 | the pair lookup also returns self rows (u,u) and (f,f), and a single one counts as the other side's request | `addFriend(1, 1)` then `addFriend(1, 2)` inserts (1,2,APPROVED) although 2 never asked | count only rows between u and f, so the second call inserts (1,2,R) | not executed | Friendships.SelfRequestCountsAsRequest | Friendships.AddFriendIntendedProperties |
