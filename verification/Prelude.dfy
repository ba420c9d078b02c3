/** Vocabulary shared by the models. */
module Prelude {
  import opened Ordering

  /** A nullable column, or a value that may be absent. */
  datatype Option<+T> = None | Some(value: T)

  function Coalesce<T>(x: Option<T>, default: T): T {
    if x.Some? then x.value else default
  }

  /** Row identifiers (UUIDs), compared as PostgreSQL orders them. */
  type Id = nat

  /** A timestamptz: microseconds on one database clock. */
  type Instant = int

  predicate IdLess(a: Id, b: Id) { a < b }

  ghost function AscendingIds(s: set<Id>): (q: seq<Id>)
    ensures Lists(IdLess, s, q)
  {
    AscendingLists(IdLess, s);
    Ascending(IdLess, s)
  }

  lemma AscendingIdsUnique(s: set<Id>, q: seq<Id>)
    requires SortedBy(IdLess, q) && forall x :: x in q <==> x in s
    ensures AscendingIds(s) == q
  {
    AscendingUnique<Id>(IdLess, AscendingIds(s), q);
  }

  method ListIds(s: set<Id>) returns (q: seq<Id>)
    ensures q == AscendingIds(s)
  {
    q := ListAscending(IdLess, s);
  }

  lemma SubsetSize<T>(a: set<T>, b: set<T>)
    requires a <= b
    ensures |a| <= |b|
  {
    assert a + (b - a) == b;
  }
}
