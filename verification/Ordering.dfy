/**
 Sequences ordered by a rank. A database query `ORDER BY rank` over a set of
 rows may return any ascending arrangement of them; this module says when there
 is only one.
 */
module Ordering {
  type Rank = real

  ghost predicate NoDuplicates<T>(s: seq<T>) {
    forall i, j :: 0 <= i < j < |s| ==> s[i] != s[j]
  }

  ghost predicate Ascending<T>(rank: T -> Rank, s: seq<T>) {
    forall i, j :: 0 <= i < j < |s| ==> rank(s[i]) <= rank(s[j])
  }

  ghost predicate StrictlyAscending<T>(rank: T -> Rank, s: seq<T>) {
    forall i, j :: 0 <= i < j < |s| ==> rank(s[i]) < rank(s[j])
  }

  ghost function Elements<T>(s: seq<T>): set<T> {
    set x | x in s
  }

  /** `view` is one of the answers to "select these rows, ordered by rank". */
  ghost predicate OrderedQuery<T>(rank: T -> Rank, rows: set<T>, view: seq<T>) {
    Elements(view) == rows && NoDuplicates(view) && Ascending(rank, view)
  }

  function InsertAt<T>(s: seq<T>, i: nat, x: T): seq<T>
    requires i <= |s|
  {
    s[..i] + [x] + s[i..]
  }

  function RemoveAt<T>(s: seq<T>, i: nat): seq<T>
    requires i < |s|
  {
    s[..i] + s[i + 1..]
  }

  /** A strictly ascending sequence is the only answer to a query for its own elements. */
  lemma {:induction false} QueryIsUnique<T>(rank: T -> Rank, s: seq<T>, view: seq<T>)
    requires StrictlyAscending(rank, s)
    requires OrderedQuery(rank, Elements(s), view)
    ensures view == s
  {
    if s == [] {
      assert forall k :: 0 <= k < |view| ==> view[k] in Elements(view);
    } else {
      assert s[0] in Elements(s);
      assert s[0] in view;
      assert view[0] in Elements(view);
      assert view[0] in s;
      assert view[0] == s[0];
      forall x | x in Elements(s[1..]) ensures x in Elements(view[1..]) {
        assert x in Elements(s);
        assert x in view;
      }
      forall x | x in Elements(view[1..]) ensures x in Elements(s[1..]) {
        assert x in Elements(view);
        assert x in s;
      }
      assert OrderedQuery(rank, Elements(s[1..]), view[1..]);
      QueryIsUnique(rank, s[1..], view[1..]);
    }
  }

  /** Inserting x at i keeps strict order exactly when the rest was in strict order and x fits the gap. */
  lemma InsertKeepsOrder<T>(rank: T -> Rank, rest: seq<T>, i: nat, x: T)
    requires i <= |rest|
    ensures StrictlyAscending(rank, InsertAt(rest, i, x)) <==>
            && StrictlyAscending(rank, rest)
            && (i > 0 ==> rank(rest[i - 1]) < rank(x))
            && (i < |rest| ==> rank(x) < rank(rest[i]))
  {
    var s := InsertAt(rest, i, x);
    assert s[i] == x;
    assert forall k :: 0 <= k < i ==> s[k] == rest[k];
    assert forall k :: i <= k < |rest| ==> s[k + 1] == rest[k];
    if StrictlyAscending(rank, s) {
      forall j, k | 0 <= j < k < |rest| ensures rank(rest[j]) < rank(rest[k]) {
        assert rest[j] == s[if j < i then j else j + 1];
        assert rest[k] == s[if k < i then k else k + 1];
      }
      if i > 0 {
        assert s[i - 1] == rest[i - 1];
      }
    }
  }

  /** Every finite collection of distinct rows has an ordered arrangement. */
  lemma {:induction false} QueryHasAnswer<T>(rank: T -> Rank, s: seq<T>) returns (view: seq<T>)
    requires NoDuplicates(s)
    ensures OrderedQuery(rank, Elements(s), view)
  {
    if s == [] {
      view := [];
    } else {
      var rest := QueryHasAnswer(rank, s[1..]);
      var i := 0;
      while i < |rest| && rank(rest[i]) < rank(s[0])
        invariant 0 <= i <= |rest|
        invariant forall k :: 0 <= k < i ==> rank(rest[k]) < rank(s[0])
      {
        i := i + 1;
      }
      view := InsertAt(rest, i, s[0]);
      assert s[0] !in s[1..];
      assert s[0] !in Elements(s[1..]);
      forall x ensures x in Elements(view) <==> x in Elements(s) {
        assert x in rest <==> x in Elements(rest);
        assert x in Elements(s[1..]) <==> x in s[1..];
        assert x in view <==> x == s[0] || x in rest;
        assert s == [s[0]] + s[1..];
      }
      assert NoDuplicates(view) by {
        forall j, k | 0 <= j < k < |view| ensures view[j] != view[k] {
          assert s[0] !in rest by { assert s[0] !in Elements(rest); }
        }
      }
    }
  }

  /**
   The order on screen is what every refetch shows exactly when the ranks on
   screen are strictly ascending.
   */
  lemma EveryQueryAgrees<T(!new)>(rank: T -> Rank, s: seq<T>)
    requires NoDuplicates(s)
    ensures (forall view :: OrderedQuery(rank, Elements(s), view) ==> view == s)
            <==> StrictlyAscending(rank, s)
  {
    if StrictlyAscending(rank, s) {
      forall view | OrderedQuery(rank, Elements(s), view) ensures view == s {
        QueryIsUnique(rank, s, view);
      }
    } else {
      var other := AnotherAnswer(rank, s);
    }
  }

  lemma AnotherAnswer<T>(rank: T -> Rank, s: seq<T>) returns (view: seq<T>)
    requires NoDuplicates(s) && !StrictlyAscending(rank, s)
    ensures OrderedQuery(rank, Elements(s), view) && view != s
  {
    view := QueryHasAnswer(rank, s);
    if view == s {
      var i, j :| 0 <= i < j < |s| && rank(s[i]) >= rank(s[j]);
      view := s[i := s[j]][j := s[i]];
      assert view[i] == s[j] && view[j] == s[i];
      assert rank(s[i]) == rank(s[j]);
      forall x ensures x in Elements(view) <==> x in Elements(s) {
        if x in s {
          var k :| 0 <= k < |s| && s[k] == x;
          assert view[if k == i then j else if k == j then i else k] == x;
        }
      }
      forall a, b | 0 <= a < b < |view| ensures rank(view[a]) <= rank(view[b]) && view[a] != view[b] {
      }
    }
  }
}
