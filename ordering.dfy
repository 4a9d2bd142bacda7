/**
 * The deterministic orders the queries return rows in. `Ranked` orders a finite
 * set of ids by a weight, descending, and breaks ties by the higher id first:
 * `ORDER BY weight DESC, id DESC`. With every weight zero it is `ORDER BY id DESC`.
 */
module Ordering {

  /** `x` comes before `y`: a larger weight, or the same weight and a larger id. */
  predicate Precedes(w: map<int, int>, x: int, y: int)
    requires x in w && y in w
  {
    w[x] > w[y] || (w[x] == w[y] && x > y)
  }

  /** `m` is the element of `s` that comes before every other one. */
  predicate IsFirst(s: set<int>, w: map<int, int>, m: int)
    requires s <= w.Keys
  {
    m in s && forall y :: y in s && y != m ==> Precedes(w, m, y)
  }

  lemma PickOne(s: set<int>) returns (x: int)
    requires s != {}
    ensures x in s
  {
    assert (forall y :: y !in s) ==> s == {};
    x :| x in s;
  }

  lemma {:induction false} FirstExists(s: set<int>, w: map<int, int>)
    requires s <= w.Keys && s != {}
    ensures exists m :: IsFirst(s, w, m)
  {
    var x := PickOne(s);
    if s != {x} {
      FirstExists(s - {x}, w);
      var m :| IsFirst(s - {x}, w, m);
      if !Precedes(w, x, m) {
        assert IsFirst(s, w, m);
      } else {
        forall y | y in s && y != x ensures Precedes(w, x, y) {
          if y != m { assert Precedes(w, m, y); }
        }
        assert IsFirst(s, w, x);
      }
    } else {
      assert IsFirst(s, w, x);
    }
  }

  function First(s: set<int>, w: map<int, int>): (m: int)
    requires s <= w.Keys && s != {}
    ensures IsFirst(s, w, m)
  {
    FirstExists(s, w);
    var m :| IsFirst(s, w, m);
    m
  }

  /** The elements of `s`, each one before all that follow it. */
  function Ranked(s: set<int>, w: map<int, int>): (r: seq<int>)
    requires s <= w.Keys
    ensures |r| == |s|
    ensures forall i :: 0 <= i < |r| ==> r[i] in s
    ensures forall x :: x in s ==> x in r
    ensures forall i, j :: 0 <= i < j < |r| ==> Precedes(w, r[i], r[j])
    decreases s
  {
    if s == {} then []
    else
      var m := First(s, w);
      [m] + Ranked(s - {m}, w)
  }

  /** `r` lists `s`: only elements of `s`, all of them, each before all that follow it. */
  predicate ListsInOrder(s: set<int>, w: map<int, int>, r: seq<int>)
    requires s <= w.Keys
  {
    && (forall i :: 0 <= i < |r| ==> r[i] in s)
    && (forall x :: x in s ==> x in r)
    && (forall i, j :: 0 <= i < j < |r| ==> Precedes(w, r[i], r[j]))
  }

  lemma HeadIsFirst(s: set<int>, w: map<int, int>, r: seq<int>)
    requires s <= w.Keys && ListsInOrder(s, w, r) && |r| > 0
    ensures IsFirst(s, w, r[0]) && r[0] == First(s, w)
  {
    forall y | y in s && y != r[0] ensures Precedes(w, r[0], y) {
      var j :| 0 <= j < |r| && r[j] == y;
    }
  }

  lemma TailListsRest(s: set<int>, w: map<int, int>, r: seq<int>)
    requires s <= w.Keys && ListsInOrder(s, w, r) && |r| > 0
    ensures ListsInOrder(s - {r[0]}, w, r[1..])
  {
    var rest := r[1..];
    forall i | 0 <= i < |rest| ensures rest[i] in s - {r[0]} {
      assert Precedes(w, r[0], r[i + 1]);
    }
    forall x | x in s - {r[0]} ensures x in rest {
      var j :| 0 <= j < |r| && r[j] == x;
      assert rest[j - 1] == x;
    }
  }

  lemma RankedUnfolds(s: set<int>, w: map<int, int>, m: int)
    requires s <= w.Keys && m in s && m == First(s, w)
    ensures Ranked(s, w) == [m] + Ranked(s - {m}, w)
  {
  }

  /** The order is total on distinct ids, so only one sequence has `Ranked`'s properties. */
  lemma {:induction false} RankedUnique(s: set<int>, w: map<int, int>, r: seq<int>)
    requires s <= w.Keys
    requires ListsInOrder(s, w, r)
    ensures r == Ranked(s, w)
    decreases s
  {
    if |r| == 0 {
      assert forall y :: y !in s;
      assert (forall y :: y !in s) ==> s == {};
    } else {
      var m := r[0];
      HeadIsFirst(s, w, r);
      TailListsRest(s, w, r);
      RankedUnique(s - {m}, w, r[1..]);
      RankedUnfolds(s, w, m);
      assert r == [m] + r[1..];
    }
  }

  function ZeroWeights(s: set<int>): (w: map<int, int>)
    ensures w.Keys == s
  {
    map x | x in s :: 0
  }

  /** `ORDER BY id DESC`. */
  function Descending(s: set<int>): (r: seq<int>)
    ensures |r| == |s|
    ensures forall i :: 0 <= i < |r| ==> r[i] in s
    ensures forall x :: x in s ==> x in r
    ensures forall i, j :: 0 <= i < j < |r| ==> r[i] > r[j]
  {
    var w := ZeroWeights(s);
    var r := Ranked(s, w);
    assert forall i, j :: 0 <= i < j < |r| ==> Precedes(w, r[i], r[j]);
    r
  }

  function NegatedIds(s: set<int>): (w: map<int, int>)
    ensures w.Keys == s
    ensures forall x :: x in s ==> w[x] == -x
  {
    map x | x in s :: -x
  }

  /** The iteration order of a `TreeSet` of ids: ascending (a larger weight `-x` means a smaller id). */
  function Ascending(s: set<int>): (r: seq<int>)
    ensures |r| == |s|
    ensures forall i :: 0 <= i < |r| ==> r[i] in s
    ensures forall x :: x in s ==> x in r
    ensures forall i, j :: 0 <= i < j < |r| ==> r[i] < r[j]
  {
    var w := NegatedIds(s);
    var r := Ranked(s, w);
    assert forall i, j :: 0 <= i < j < |r| ==> Precedes(w, r[i], r[j]);
    r
  }

  function Min(a: int, b: int): int {
    if a <= b then a else b
  }

  /** The first `n` of `Ranked` (`LIMIT n`): every element left out comes after every one kept. */
  function Top(s: set<int>, w: map<int, int>, n: nat): (o: seq<int>)
    requires s <= w.Keys
    ensures |o| == Min(n, |s|)
    ensures forall i :: 0 <= i < |o| ==> o[i] in s
    ensures forall i, j :: 0 <= i < j < |o| ==> Precedes(w, o[i], o[j])
    ensures forall x :: x in s && x !in o ==> forall i :: 0 <= i < |o| ==> Precedes(w, o[i], x)
  {
    var order := Ranked(s, w);
    var o := order[..Min(n, |order|)];
    assert forall x :: x in s && x !in o ==> forall i :: 0 <= i < |o| ==> Precedes(w, o[i], x) by {
      forall x | x in s && x !in o ensures forall i :: 0 <= i < |o| ==> Precedes(w, o[i], x) {
        var k :| 0 <= k < |order| && order[k] == x;
        assert k >= |o|;
      }
    }
    o
  }

  /** The values of `m` under `keys`, in that order. */
  function ValuesAt<V>(m: map<int, V>, keys: seq<int>): (r: seq<V>)
    requires forall i :: 0 <= i < |keys| ==> keys[i] in m
    ensures |r| == |keys| && forall i :: 0 <= i < |r| ==> r[i] == m[keys[i]]
  {
    seq(|keys|, i requires 0 <= i < |keys| => m[keys[i]])
  }

  /** The values of `m`, one per key, in ascending key order. */
  function ValuesInKeyOrder<V(==)>(m: map<int, V>): (r: seq<V>)
    ensures |r| == |m|
    ensures forall i :: 0 <= i < |r| ==> r[i] in m.Values
    ensures forall k :: k in m ==> m[k] in r
    ensures forall i :: 0 <= i < |r| ==> r[i] == m[Ascending(m.Keys)[i]]
  {
    var ks := m.Keys;
    assert |ks| == |m|;
    var keys := Ascending(ks);
    var r := ValuesAt(m, keys);
    assert forall i :: 0 <= i < |r| ==> r[i] in m.Values by {
      forall i | 0 <= i < |r| ensures r[i] in m.Values {
        assert keys[i] in m && m[keys[i]] == r[i];
      }
    }
    assert forall k :: k in m ==> m[k] in r by {
      forall k | k in m ensures m[k] in r {
        var i :| 0 <= i < |keys| && keys[i] == k;
        assert r[i] == m[k];
      }
    }
    r
  }
}
