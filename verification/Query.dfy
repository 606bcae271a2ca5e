/** Result lists of database queries.  Without an ORDER BY the order of a result
    is unspecified, and with one the order of ties is: both are left open here. */
module Query {
  ghost predicate NoDuplicates<T>(rows: seq<T>) {
    forall i, j :: 0 <= i < j < |rows| ==> rows[i] != rows[j]
  }

  ghost predicate Lists<T(!new)>(rows: seq<T>, members: set<T>) {
    && NoDuplicates(rows)
    && (forall r :: r in rows <==> r in members)
  }

  ghost predicate SortedBy<T(!new)>(rows: seq<T>, key: T -> int) {
    forall i, j :: 0 <= i < j < |rows| ==> key(rows[i]) <= key(rows[j])
  }

  /** Some order, no order in particular. */
  method Enumerate<T(!new,==)>(members: set<T>) returns (rows: seq<T>)
    ensures Lists(rows, members)
  {
    rows := [];
    var rest := members;
    while rest != {}
      invariant rest <= members
      invariant Lists(rows, members - rest)
      decreases |rest|
    {
      var r :| r in rest;
      rows := rows + [r];
      rest := rest - {r};
    }
  }

  lemma {:induction false} LeastExists<T(!new)>(members: set<T>, key: T -> int)
    requires members != {}
    ensures exists r :: r in members && forall x :: x in members ==> key(r) <= key(x)
    decreases |members|
  {
    var r :| r in members;
    if members != {r} {
      LeastExists(members - {r}, key);
      var least :| least in members - {r} && forall x :: x in members - {r} ==> key(least) <= key(x);
      var best := if key(r) <= key(least) then r else least;
      assert best in members && forall x :: x in members ==> key(best) <= key(x);
    }
  }

  /** Ascending in the key, ties in any order. */
  method EnumerateBy<T(!new,==)>(members: set<T>, key: T -> int) returns (rows: seq<T>)
    ensures Lists(rows, members)
    ensures SortedBy(rows, key)
  {
    rows := [];
    var rest := members;
    while rest != {}
      invariant rest <= members
      invariant Lists(rows, members - rest)
      invariant SortedBy(rows, key)
      invariant forall r, x :: r in rows && x in rest ==> key(r) <= key(x)
      decreases |rest|
    {
      LeastExists(rest, key);
      var r :| r in rest && forall x :: x in rest ==> key(r) <= key(x);
      rows := rows + [r];
      rest := rest - {r};
    }
  }

  /** Two listings of one set agree as multisets. */
  lemma {:induction false} ListsMultiset<T(!new)>(rows: seq<T>, members: set<T>)
    requires Lists(rows, members)
    ensures multiset(rows) == multiset(members)
    decreases |rows|
  {
    if rows != [] {
      var n := |rows| - 1;
      var front := rows[..n];
      assert rows == front + [rows[n]];
      assert Lists(front, members - {rows[n]}) by {
        forall r ensures r in front <==> r in members - {rows[n]} {
          if r in members - {rows[n]} { assert r in rows; }
        }
      }
      ListsMultiset(front, members - {rows[n]});
      assert members == (members - {rows[n]}) + {rows[n]};
    } else {
      assert forall r :: r in members ==> r in rows;
      assert members == {};
    }
  }

  ghost predicate StrictlySortedBy<T(!new)>(rows: seq<T>, key: T -> int) {
    forall i, j :: 0 <= i < j < |rows| ==> key(rows[i]) < key(rows[j])
  }

  /** Without ties a sorted listing is determined by its members. */
  lemma {:induction false} SortedUnique<T(!new)>(rows: seq<T>, expected: seq<T>, key: T -> int)
    requires NoDuplicates(rows) && SortedBy(rows, key)
    requires StrictlySortedBy(expected, key)
    requires forall x :: x in rows <==> x in expected
    ensures rows == expected
    decreases |rows|
  {
    assert |expected| > 0 ==> expected[0] in rows;
    if rows != [] {
      assert rows[0] in expected;
      var n, m := |rows| - 1, |expected| - 1;
      LastIsGreatest(rows, expected, key);
      assert rows == rows[..n] + [rows[n]];
      assert expected == expected[..m] + [expected[m]];
      forall x ensures x in rows[..n] <==> x in expected[..m] {
        if x in rows[..n] {
          var i :| 0 <= i < n && rows[i] == x;
          assert rows[i] != rows[n];
          assert x in expected;
        }
        if x in expected[..m] {
          var i :| 0 <= i < m && expected[i] == x;
          assert key(expected[i]) < key(expected[m]);
          assert x in rows;
        }
      }
      SortedUnique(rows[..n], expected[..m], key);
    }
  }

  lemma {:induction false} LastIsGreatest<T(!new)>(rows: seq<T>, expected: seq<T>, key: T -> int)
    requires rows != [] && expected != []
    requires SortedBy(rows, key) && StrictlySortedBy(expected, key)
    requires forall x :: x in rows <==> x in expected
    ensures rows[|rows| - 1] == expected[|expected| - 1]
  {
    var n, m := |rows| - 1, |expected| - 1;
    assert rows[n] in expected && expected[m] in rows;
    var i :| 0 <= i < |rows| && rows[i] == expected[m];
    var j :| 0 <= j < |expected| && expected[j] == rows[n];
    assert i < n ==> key(rows[i]) <= key(rows[n]);
    assert j < m ==> key(expected[j]) < key(expected[m]);
  }

  lemma {:induction false} SortedListingExists<T(!new)>(members: set<T>, key: T -> int) returns (rows: seq<T>)
    ensures Lists(rows, members) && SortedBy(rows, key)
    decreases |members|
  {
    if members == {} {
      rows := [];
    } else {
      LeastExists(members, key);
      var r :| r in members && forall x :: x in members ==> key(r) <= key(x);
      var rest := SortedListingExists(members - {r}, key);
      rows := [r] + rest;
    }
  }
}
