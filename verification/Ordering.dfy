/** SQL's ORDER BY over a duplicate-free result, as a function from a finite set to the one
    sequence that lists it in ascending order. */
module Ordering {

  ghost predicate StrictPartial<T(!new)>(less: (T, T) -> bool) {
    && (forall x :: !less(x, x))
    && (forall x, y, z :: less(x, y) && less(y, z) ==> less(x, z))
  }

  ghost predicate StrictTotal<T(!new)>(less: (T, T) -> bool) {
    && StrictPartial(less)
    && (forall x, y :: x == y || less(x, y) || less(y, x))
  }

  ghost predicate SortedBy<T(!new)>(less: (T, T) -> bool, q: seq<T>) {
    forall i, j :: 0 <= i < j < |q| ==> less(q[i], q[j])
  }

  ghost predicate Lists<T(!new)>(less: (T, T) -> bool, s: set<T>, q: seq<T>) {
    && |q| == |s| && SortedBy(less, q) && forall x :: x in q <==> x in s
  }

  ghost predicate IsLeast<T(!new)>(less: (T, T) -> bool, x: T, s: set<T>) {
    x in s && forall y :: y in s ==> x == y || less(x, y)
  }

  lemma {:induction false} LeastExists<T(!new)>(less: (T, T) -> bool, s: set<T>)
    requires StrictTotal(less) && s != {}
    ensures exists x :: IsLeast(less, x, s)
  {
    var x :| x in s;
    if s != {x} {
      LeastExists(less, s - {x});
      var y :| IsLeast(less, y, s - {x});
      assert IsLeast(less, if less(y, x) then y else x, s);
    } else {
      assert IsLeast(less, x, s);
    }
  }

  lemma {:induction false} ListingExists<T(!new)>(less: (T, T) -> bool, s: set<T>)
    requires StrictTotal(less)
    ensures exists q :: Lists(less, s, q)
  {
    if s == {} {
      assert Lists(less, s, []);
    } else {
      LeastExists(less, s);
      var x :| IsLeast(less, x, s);
      ListingExists(less, s - {x});
      var q :| Lists(less, s - {x}, q);
      assert Lists(less, s, [x] + q);
    }
  }

  /** The elements of `s` in ascending order. */
  ghost function Ascending<T(!new)>(less: (T, T) -> bool, s: set<T>): seq<T> {
    if q :| Lists(less, s, q) then q else []
  }

  lemma AscendingLists<T(!new)>(less: (T, T) -> bool, s: set<T>)
    requires StrictTotal(less)
    ensures Lists(less, s, Ascending(less, s))
  {
    ListingExists(less, s);
  }

  /** The first `n` rows of the ordered result: ORDER BY … LIMIT n. */
  function Limit<T>(q: seq<T>, n: nat): (r: seq<T>)
    ensures |r| == if |q| <= n then |q| else n
    ensures r <= q
  {
    if |q| <= n then q else q[..n]
  }

  /** The first n of a listing: whatever is left out comes after all of them. */
  lemma LimitIsFirst<T(!new)>(less: (T, T) -> bool, s: set<T>, all: seq<T>, n: nat)
    requires Lists(less, s, all)
    ensures var q := Limit(all, n);
      && |q| <= n && SortedBy(less, q) && (forall x :: x in q ==> x in s)
      && forall y :: y in s && y !in q ==> |q| == n && forall x :: x in q ==> less(x, y)
  {
    var q := Limit(all, n);
    forall x | x in q ensures x in s { assert x in all; }
    forall y | y in s && y !in q ensures |q| == n && forall x :: x in q ==> less(x, y) {
      assert y in all;
      var j :| 0 <= j < |all| && all[j] == y;
      assert forall i :: 0 <= i < |q| ==> q[i] == all[i] && q[i] in q;
      forall x | x in q ensures less(x, y) {
        var i :| 0 <= i < |q| && q[i] == x;
        assert all[i] == x;
      }
    }
  }

  function Elements<T>(q: seq<T>): set<T> {
    set x | x in q
  }

  /** A sorted listing has no repetition. */
  lemma {:induction false} SortedIsDistinct<T(!new)>(less: (T, T) -> bool, q: seq<T>)
    requires (forall x :: !less(x, x)) && SortedBy(less, q)
    ensures |Elements(q)| == |q|
  {
    if q == [] {
      assert Elements(q) == {};
    } else {
      var p, x := q[..|q| - 1], q[|q| - 1];
      SortedIsDistinct(less, p);
      assert Elements(q) == Elements(p) + {x};
    }
  }

  /** An ascending listing is determined by its elements. */
  lemma {:induction false} AscendingUnique<T(!new)>(less: (T, T) -> bool, p: seq<T>, q: seq<T>)
    requires StrictPartial(less) && SortedBy(less, p) && SortedBy(less, q)
    requires forall x :: x in p <==> x in q
    ensures p == q
  {
    assert |q| > 0 ==> q[0] in q;
    if p != [] {
      assert p[0] in p && p[0] in q;
      assert q[0] in q && q[0] in p;
      assert p[0] == q[0];
      forall x ensures x in p[1..] <==> x in q[1..] {
        if x in p[1..] { assert x in p && x != p[0]; }
        if x in q[1..] { assert x in q && x != q[0]; }
      }
      AscendingUnique(less, p[1..], q[1..]);
      assert p == [p[0]] + p[1..] && q == [q[0]] + q[1..];
    }
  }

  /** Selection by repeated minimum: an executable listing. */
  method ListAscending<T(!new, ==)>(less: (T, T) -> bool, s: set<T>) returns (q: seq<T>)
    requires StrictTotal(less)
    ensures q == Ascending(less, s)
  {
    q := [];
    var rest := s;
    while rest != {}
      invariant rest <= s && SortedBy(less, q)
      invariant forall x :: x in q <==> x in s && x !in rest
      invariant forall x, y :: x in q && y in rest ==> less(x, y)
      decreases |rest|
    {
      LeastExists(less, rest);
      var least :| least in rest && forall y :: y in rest ==> least == y || less(least, y);
      q, rest := q + [least], rest - {least};
    }
    AscendingLists(less, s);
    AscendingUnique(less, q, Ascending(less, s));
  }
}
