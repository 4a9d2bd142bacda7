/**
 * The `friendship` table and what `UserDbStorage.addFriend` and `deleteFriend`
 * do to it, statement by statement. A row `(user_id, friend_id, friend_status)`
 * says that `user_id` lists `friend_id` as a friend; `(user_id, friend_id)` is
 * the table's primary key.
 */
module Friendships {
  import opened Wrappers
  import opened Errors

  datatype Status = Requested | Approved

  datatype Friendship = Friendship(userId: int, friendId: int, status: Status)

  /** Some row with key `(u, f)` is present, whatever its status. */
  predicate HasKey(rows: set<Friendship>, u: int, f: int) {
    Friendship(u, f, Requested) in rows || Friendship(u, f, Approved) in rows
  }

  /** The primary key: no key is stored with both statuses. */
  ghost predicate KeyUnique(rows: set<Friendship>) {
    forall u, f :: !(Friendship(u, f, Requested) in rows && Friendship(u, f, Approved) in rows)
  }

  /** Both ends of the row are among `u` and `f` (so `(u, u)` and `(f, f)` qualify too). */
  predicate OnPair(r: Friendship, u: int, f: int) {
    (r.userId == u || r.userId == f) && (r.friendId == u || r.friendId == f)
  }

  /**
   * `findFriendRequest`: `WHERE user_id IN (u, f) AND friend_id IN (f, u)`:
   * the rows of both directions between the pair, and beyond them only a
   * user's row for itself.
   */
  function PairRows(rows: set<Friendship>, u: int, f: int): (p: set<Friendship>)
    ensures p <= rows
    ensures forall x :: x in rows && BetweenPair(x, u, f) ==> x in p
    ensures forall x :: x in p && !BetweenPair(x, u, f) ==> x.userId == x.friendId
  {
    set r | r in rows && OnPair(r, u, f)
  }

  /** `UPDATE friendship SET friend_status = st WHERE user_id = user`. */
  function SetStatusOf(rows: set<Friendship>, user: int, st: Status): (out: set<Friendship>)
    ensures forall r :: r in out <==>
      (r.userId != user && r in rows) || (r.userId == user && r.status == st && HasKey(rows, user, r.friendId))
  {
    var out := set r | r in rows :: if r.userId == user then r.(status := st) else r;
    assert forall r: Friendship | r.userId == user && r.status == st && HasKey(rows, user, r.friendId) :: r in out by {
      forall r: Friendship | r.userId == user && r.status == st && HasKey(rows, user, r.friendId) ensures r in out {
        var src := if Friendship(user, r.friendId, Requested) in rows
                   then Friendship(user, r.friendId, Requested) else Friendship(user, r.friendId, Approved);
        assert src in rows && src.(status := st) == r;
      }
    }
    out
  }

  lemma RowHasKey(rows: set<Friendship>, r: Friendship)
    requires r in rows
    ensures HasKey(rows, r.userId, r.friendId)
  {
    if r.status == Requested {
      assert r == Friendship(r.userId, r.friendId, Requested);
    } else {
      assert r == Friendship(r.userId, r.friendId, Approved);
    }
  }

  /** The ids `u` lists as friends, whatever the status: `SELECT ... WHERE user_id = u`. */
  function FriendIds(rows: set<Friendship>, u: int): (ids: set<int>)
    ensures forall v :: v in ids <==> HasKey(rows, u, v)
  {
    var ids := set r | r in rows && r.userId == u :: r.friendId;
    assert forall v | v in ids :: HasKey(rows, u, v) by {
      forall v | v in ids ensures HasKey(rows, u, v) {
        var r :| r in rows && r.userId == u && r.friendId == v;
        RowHasKey(rows, r);
      }
    }
    assert forall v | HasKey(rows, u, v) :: v in ids by {
      forall v | HasKey(rows, u, v) ensures v in ids {
        if Friendship(u, v, Requested) in rows {
          assert Friendship(u, v, Requested).friendId == v;
        } else {
          assert Friendship(u, v, Approved).friendId == v;
        }
      }
    }
    ids
  }

  /** The table after an operation, and whether it completed or which exception it raised. */
  datatype Step = Step(rows: set<Friendship>, outcome: Outcome<Error>)

  /** `INSERT INTO friendship VALUES (...)`: a key already present is a primary-key violation. */
  function Insert(rows: set<Friendship>, row: Friendship): (s: Step)
    ensures s.outcome.Pass? <==> !HasKey(rows, row.userId, row.friendId)
    ensures s.outcome.Pass? ==> s.rows == rows + {row}
    ensures s.outcome.Fail? ==> s.rows == rows && s.outcome.error == DuplicateFriendshipKey(row.userId, row.friendId)
  {
    if HasKey(rows, row.userId, row.friendId) then Step(rows, Fail(DuplicateFriendshipKey(row.userId, row.friendId)))
    else Step(rows + {row}, Pass)
  }

  /**
   * `addFriend(u, f)`: reject when the pair lookup has two rows or holds u's
   * own request; with one row, approve every row of `f` and insert an
   * approved row; with none, insert a request.
   */
  function AddFriendStep(rows: set<Friendship>, u: int, f: int): (s: Step)
    ensures s.outcome.Pass? ==> !HasKey(rows, u, f) && HasKey(s.rows, u, f)
    ensures s.outcome.Fail? ==> s.outcome.error in {AlreadyInFriendship(u, f), DuplicateFriendshipKey(u, f)}
    ensures s.outcome == Fail(AlreadyInFriendship(u, f)) ==> s.rows == rows
    ensures forall r: Friendship :: r.userId != u && r.userId != f ==> (r in s.rows <==> r in rows)
  {
    var pair := PairRows(rows, u, f);
    if |pair| == 2 || Friendship(u, f, Requested) in pair then Step(rows, Fail(AlreadyInFriendship(u, f)))
    else if |pair| == 1 then Insert(SetStatusOf(rows, f, Approved), Friendship(u, f, Approved))
    else Insert(rows, Friendship(u, f, Requested))
  }

  /**
   * `deleteFriend(u, f)`: a request of u's is deleted; an approved row of u's
   * is deleted and every row of `f` goes back to requested; with neither the
   * call raises the "already in friendship" validation error.
   */
  function DeleteFriendStep(rows: set<Friendship>, u: int, f: int): (s: Step)
    ensures s.outcome.Fail? <==> !HasKey(rows, u, f)
    ensures s.outcome.Fail? ==> s.rows == rows && s.outcome.error == AlreadyInFriendship(u, f)
    ensures KeyUnique(rows) && s.outcome.Pass? ==> !HasKey(s.rows, u, f)
    ensures forall r: Friendship :: r.userId != u && r.userId != f ==> (r in s.rows <==> r in rows)
  {
    var pair := PairRows(rows, u, f);
    if Friendship(u, f, Requested) in pair then Step(rows - {Friendship(u, f, Requested)}, Pass)
    else if Friendship(u, f, Approved) in pair then
      Step(SetStatusOf(rows - {Friendship(u, f, Approved)}, f, Requested), Pass)
    else Step(rows, Fail(AlreadyInFriendship(u, f)))
  }

  lemma PairHoldsKeys(rows: set<Friendship>, u: int, f: int)
    ensures forall st :: Friendship(u, f, st) in PairRows(rows, u, f) <==> Friendship(u, f, st) in rows
    ensures forall st :: Friendship(f, u, st) in PairRows(rows, u, f) <==> Friendship(f, u, st) in rows
    ensures forall x :: x in PairRows(rows, u, f) ==>
      BetweenPair(x, u, f) || (x.userId == x.friendId && (x.userId == u || x.userId == f))
  {
  }

  lemma FriendIdsOfSetStatus(rows: set<Friendship>, user: int, st: Status)
    ensures forall y :: FriendIds(SetStatusOf(rows, user, st), y) == FriendIds(rows, y)
  {
  }

  /** With no row between the two users, `addFriend` inserts exactly u's request; f's friend list is unchanged. */
  lemma AddFriendRequestsWhenPairEmpty(rows: set<Friendship>, u: int, f: int)
    requires PairRows(rows, u, f) == {}
    ensures AddFriendStep(rows, u, f) == Step(rows + {Friendship(u, f, Requested)}, Pass)
    ensures FriendIds(AddFriendStep(rows, u, f).rows, u) == FriendIds(rows, u) + {f}
    ensures u != f ==> FriendIds(AddFriendStep(rows, u, f).rows, f) == FriendIds(rows, f)
  {
    PairHoldsKeys(rows, u, f);
    assert !HasKey(rows, u, f);
  }

  /** `addFriend` raises the "already in friendship" error exactly in its first branch, and then changes nothing. */
  lemma AddFriendRejectsIff(rows: set<Friendship>, u: int, f: int)
    ensures AddFriendStep(rows, u, f).outcome == Fail(AlreadyInFriendship(u, f))
      <==> |PairRows(rows, u, f)| == 2 || Friendship(u, f, Requested) in rows
    ensures AddFriendStep(rows, u, f).outcome == Fail(AlreadyInFriendship(u, f)) ==> AddFriendStep(rows, u, f).rows == rows
  {
    PairHoldsKeys(rows, u, f);
  }

  /**
   * With exactly one row between the pair and no request of u's, `addFriend`
   * approves every row of `f` and adds `(u, f, APPROVED)`; it fails on the
   * primary key exactly when u already had an (approved) row, after the
   * update has been applied.
   */
  lemma AddFriendConfirms(rows: set<Friendship>, u: int, f: int)
    requires |PairRows(rows, u, f)| == 1 && Friendship(u, f, Requested) !in rows
    ensures AddFriendStep(rows, u, f).outcome.Pass? <==> !HasKey(rows, u, f)
    ensures AddFriendStep(rows, u, f).outcome.Fail? ==>
      AddFriendStep(rows, u, f).outcome.error == DuplicateFriendshipKey(u, f)
      && AddFriendStep(rows, u, f).rows == SetStatusOf(rows, f, Approved)
    ensures AddFriendStep(rows, u, f).outcome.Pass? ==> forall r :: r in AddFriendStep(rows, u, f).rows <==>
      r == Friendship(u, f, Approved) || (r.userId != f && r in rows)
      || (r.userId == f && r.status == Approved && HasKey(rows, f, r.friendId))
  {
    PairHoldsKeys(rows, u, f);
    var pair := PairRows(rows, u, f);
    assert Friendship(u, f, Requested) !in pair;
    var up := SetStatusOf(rows, f, Approved);
    assert HasKey(up, u, f) <==> HasKey(rows, u, f);
  }

  /** A second `addFriend` of the same pair after a successful one is rejected and changes nothing. */
  lemma AddFriendTwiceFails(rows: set<Friendship>, u: int, f: int)
    requires AddFriendStep(rows, u, f).outcome.Pass?
    ensures var s := AddFriendStep(rows, u, f).rows;
      AddFriendStep(s, u, f) == Step(s, Fail(AlreadyInFriendship(u, f)))
  {
    var pair := PairRows(rows, u, f);
    PairHoldsKeys(rows, u, f);
    var s := AddFriendStep(rows, u, f).rows;
    PairHoldsKeys(s, u, f);
    if |pair| == 1 {
      AddFriendConfirms(rows, u, f);
      assert (forall y :: y !in pair) ==> pair == {};
      var p :| p in pair;
      assert |pair - {p}| == 0;
      forall q | q in pair ensures q == p {
        assert q !in pair - {p};
      }
      RowHasKey(rows, p);
      assert !(p.userId == u && p.friendId == f);
      var p' := if p.userId == f then p.(status := Approved) else p;
      var ok := Friendship(u, f, Approved);
      assert s == SetStatusOf(rows, f, Approved) + {ok};
      forall r | r in PairRows(s, u, f) ensures r == p' || r == ok {
        if r != ok {
          if r.userId == f {
            var q := if Friendship(f, r.friendId, Requested) in rows
                     then Friendship(f, r.friendId, Requested) else Friendship(f, r.friendId, Approved);
            assert q in pair;
            assert q == p;
          } else {
            assert r in pair;
          }
        }
      }
      assert p' in PairRows(s, u, f) && ok in PairRows(s, u, f);
      assert PairRows(s, u, f) == {p', ok};
    } else {
      assert Friendship(u, f, Requested) in s;
    }
  }

  /** The confirmation `UserDbStorageTest` expects: u's request followed by f's `addFriend` makes both rows approved. */
  lemma MutualConfirmation(rows: set<Friendship>, u: int, f: int)
    requires u != f && PairRows(rows, u, f) == {}
    ensures var s1 := AddFriendStep(rows, u, f);
      var s2 := AddFriendStep(s1.rows, f, u);
      s1.outcome == Pass && s2.outcome == Pass
      && Friendship(u, f, Approved) in s2.rows && Friendship(f, u, Approved) in s2.rows
      && f in FriendIds(s2.rows, u) && u in FriendIds(s2.rows, f)
  {
    AddFriendRequestsWhenPairEmpty(rows, u, f);
    var s1 := rows + {Friendship(u, f, Requested)};
    PairHoldsKeys(rows, u, f);
    assert PairRows(s1, f, u) == {Friendship(u, f, Requested)} by {
      forall r | r in PairRows(s1, f, u) ensures r == Friendship(u, f, Requested) {
        assert r !in PairRows(rows, u, f);
      }
    }
    AddFriendConfirms(s1, f, u);
  }

  /** Deleting a pending request removes that row only. */
  lemma DeleteRequested(rows: set<Friendship>, u: int, f: int)
    requires Friendship(u, f, Requested) in rows
    ensures DeleteFriendStep(rows, u, f) == Step(rows - {Friendship(u, f, Requested)}, Pass)
    ensures KeyUnique(rows) ==> FriendIds(DeleteFriendStep(rows, u, f).rows, u) == FriendIds(rows, u) - {f}
    ensures forall x :: x != u ==> FriendIds(DeleteFriendStep(rows, u, f).rows, x) == FriendIds(rows, x)
  {
    PairHoldsKeys(rows, u, f);
  }

  /**
   * Deleting an approved row removes it and turns every row of `f` back into a
   * request, so f still lists u.
   */
  lemma DeleteApprovedDemotes(rows: set<Friendship>, u: int, f: int)
    requires Friendship(u, f, Requested) !in rows && Friendship(u, f, Approved) in rows
    ensures DeleteFriendStep(rows, u, f).outcome == Pass
    ensures FriendIds(DeleteFriendStep(rows, u, f).rows, u) == FriendIds(rows, u) - {f}
    ensures u != f ==> FriendIds(DeleteFriendStep(rows, u, f).rows, f) == FriendIds(rows, f)
    ensures forall v :: HasKey(rows, f, v) && (f, v) != (u, f) ==> Friendship(f, v, Requested) in DeleteFriendStep(rows, u, f).rows
    ensures forall v :: Friendship(f, v, Approved) !in DeleteFriendStep(rows, u, f).rows
  {
    PairHoldsKeys(rows, u, f);
    FriendIdsOfSetStatus(rows - {Friendship(u, f, Approved)}, f, Requested);
  }

  /** `deleteFriend` fails exactly when u has no row for f, and then changes nothing. */
  lemma DeleteFailsIff(rows: set<Friendship>, u: int, f: int)
    ensures DeleteFriendStep(rows, u, f).outcome.Fail? <==> !HasKey(rows, u, f)
    ensures DeleteFriendStep(rows, u, f).outcome.Fail? ==>
      DeleteFriendStep(rows, u, f) == Step(rows, Fail(AlreadyInFriendship(u, f)))
  {
    PairHoldsKeys(rows, u, f);
  }

  lemma SetStatusKeepsKeyUnique(rows: set<Friendship>, user: int, st: Status)
    requires KeyUnique(rows)
    ensures KeyUnique(SetStatusOf(rows, user, st))
  {
  }

  /** `addFriend` keeps the primary key: a clashing insert is refused. */
  lemma AddFriendPreservesKeyUnique(rows: set<Friendship>, u: int, f: int)
    requires KeyUnique(rows)
    ensures KeyUnique(AddFriendStep(rows, u, f).rows)
  {
    SetStatusKeepsKeyUnique(rows, f, Approved);
  }

  lemma DeleteFriendPreservesKeyUnique(rows: set<Friendship>, u: int, f: int)
    requires KeyUnique(rows)
    ensures KeyUnique(DeleteFriendStep(rows, u, f).rows)
  {
    SetStatusKeepsKeyUnique(rows - {Friendship(u, f, Approved)}, f, Requested);
  }

  // Discrepancies between the statements and the friendship they mean to record.

  /** The row links `u` and `f`, in either direction. */
  predicate BetweenPair(r: Friendship, u: int, f: int) {
    (r.userId == u && r.friendId == f) || (r.userId == f && r.friendId == u)
  }

  /**
   * `addFriend` as evidently intended: f's pending row for u is what u
   * confirms, and only the two rows of the pair are touched.
   */
  function AddFriendStepIntended(rows: set<Friendship>, u: int, f: int): (s: Step)
    ensures s.outcome.Fail? <==> HasKey(rows, u, f)
    ensures s.outcome.Fail? ==> s.rows == rows && s.outcome.error == AlreadyInFriendship(u, f)
    ensures s.outcome.Pass? ==> HasKey(s.rows, u, f)
    ensures forall r :: !BetweenPair(r, u, f) ==> (r in s.rows <==> r in rows)
  {
    if HasKey(rows, u, f) then Step(rows, Fail(AlreadyInFriendship(u, f)))
    else if HasKey(rows, f, u) then
      Step(rows - {Friendship(f, u, Requested)} + {Friendship(f, u, Approved), Friendship(u, f, Approved)}, Pass)
    else Step(rows + {Friendship(u, f, Requested)}, Pass)
  }

  lemma AddFriendIntendedProperties(rows: set<Friendship>, u: int, f: int)
    requires KeyUnique(rows)
    ensures var s := AddFriendStepIntended(rows, u, f);
      (s.outcome.Fail? <==> HasKey(rows, u, f))
      && KeyUnique(s.rows)
      && (forall r :: !BetweenPair(r, u, f) ==> (r in s.rows <==> r in rows))
      && (s.outcome.Pass? && HasKey(rows, f, u) ==>
            Friendship(u, f, Approved) in s.rows && Friendship(f, u, Approved) in s.rows)
      && (s.outcome.Pass? && !HasKey(rows, f, u) ==> s.rows == rows + {Friendship(u, f, Requested)})
  {
  }

  /** `deleteFriend` as evidently intended: only f's row for u goes back to a request. */
  function DeleteFriendStepIntended(rows: set<Friendship>, u: int, f: int): (s: Step)
    ensures s.outcome.Fail? <==> !HasKey(rows, u, f)
    ensures s.outcome.Fail? ==> s.rows == rows && s.outcome.error == AlreadyInFriendship(u, f)
    ensures forall r :: !BetweenPair(r, u, f) ==> (r in s.rows <==> r in rows)
  {
    if Friendship(u, f, Requested) in rows then Step(rows - {Friendship(u, f, Requested)}, Pass)
    else if Friendship(u, f, Approved) in rows then
      var rest := rows - {Friendship(u, f, Approved)};
      if Friendship(f, u, Approved) in rest
      then Step(rest - {Friendship(f, u, Approved)} + {Friendship(f, u, Requested)}, Pass)
      else Step(rest, Pass)
    else Step(rows, Fail(AlreadyInFriendship(u, f)))
  }

  lemma DeleteFriendIntendedProperties(rows: set<Friendship>, u: int, f: int)
    requires KeyUnique(rows)
    ensures var s := DeleteFriendStepIntended(rows, u, f);
      (s.outcome.Fail? <==> !HasKey(rows, u, f))
      && KeyUnique(s.rows)
      && (forall r :: !BetweenPair(r, u, f) ==> (r in s.rows <==> r in rows))
      && (s.outcome.Pass? ==> !HasKey(s.rows, u, f))
      && (u != f ==> (HasKey(s.rows, f, u) <==> HasKey(rows, f, u)))
  {
  }

  /**
   * Confirming a request approves every row of the confirmed user: 2's
   * pending request to 3 becomes approved when 1 confirms 2's request.
   */
  lemma ConfirmApprovesUnrelatedRequest()
    ensures var rows := {Friendship(2, 1, Requested), Friendship(2, 3, Requested)};
      AddFriendStep(rows, 1, 2)
        == Step({Friendship(2, 1, Approved), Friendship(2, 3, Approved), Friendship(1, 2, Approved)}, Pass)
      && Friendship(2, 3, Requested) in AddFriendStepIntended(rows, 1, 2).rows
  {
    var rows := {Friendship(2, 1, Requested), Friendship(2, 3, Requested)};
    assert PairRows(rows, 1, 2) == {Friendship(2, 1, Requested)} by {
      assert Friendship(2, 3, Requested) !in PairRows(rows, 1, 2);
      assert Friendship(2, 1, Requested) in PairRows(rows, 1, 2);
    }
    var up := SetStatusOf(rows, 2, Approved);
    assert up == {Friendship(2, 1, Approved), Friendship(2, 3, Approved)} by {
      assert Friendship(2, 1, Approved) in up && Friendship(2, 3, Approved) in up;
    }
  }

  /**
   * Deleting an approved friendship demotes every row of the former friend:
   * 2's approved friendship with 3 becomes a request while 3's row stays approved.
   */
  lemma DemoteDemotesUnrelatedFriendship()
    ensures var rows := {Friendship(1, 2, Approved), Friendship(2, 1, Approved),
                         Friendship(2, 3, Approved), Friendship(3, 2, Approved)};
      DeleteFriendStep(rows, 1, 2)
        == Step({Friendship(2, 1, Requested), Friendship(2, 3, Requested), Friendship(3, 2, Approved)}, Pass)
      && Friendship(2, 3, Approved) in DeleteFriendStepIntended(rows, 1, 2).rows
  {
    var rows := {Friendship(1, 2, Approved), Friendship(2, 1, Approved),
                 Friendship(2, 3, Approved), Friendship(3, 2, Approved)};
    assert Friendship(1, 2, Requested) !in PairRows(rows, 1, 2);
    assert Friendship(1, 2, Approved) in PairRows(rows, 1, 2);
    var rest := rows - {Friendship(1, 2, Approved)};
    assert rest == {Friendship(2, 1, Approved), Friendship(2, 3, Approved), Friendship(3, 2, Approved)};
    var down := SetStatusOf(rest, 2, Requested);
    assert down == {Friendship(2, 1, Requested), Friendship(2, 3, Requested), Friendship(3, 2, Approved)} by {
      assert Friendship(2, 1, Requested) in down && Friendship(2, 3, Requested) in down;
      assert Friendship(3, 2, Approved) in down;
    }
  }

  /**
   * A self row counts as the other side's request: after `addFriend(1, 1)`,
   * `addFriend(1, 2)` records an approved friendship 2 never asked for.
   */
  lemma SelfRequestCountsAsRequest()
    ensures AddFriendStep({}, 1, 1) == Step({Friendship(1, 1, Requested)}, Pass)
    ensures AddFriendStep({Friendship(1, 1, Requested)}, 1, 2)
      == Step({Friendship(1, 1, Requested), Friendship(1, 2, Approved)}, Pass)
    ensures AddFriendStepIntended({Friendship(1, 1, Requested)}, 1, 2)
      == Step({Friendship(1, 1, Requested), Friendship(1, 2, Requested)}, Pass)
  {
    assert PairRows({}, 1, 1) == {};
    var rows := {Friendship(1, 1, Requested)};
    assert PairRows(rows, 1, 2) == rows by {
      assert Friendship(1, 1, Requested) in PairRows(rows, 1, 2);
    }
    assert SetStatusOf(rows, 2, Approved) == rows;
  }
}
