/** The validity columns of `memories`, and the two acceptance tests over them: the preflight of
    scripts/backfill-memory-validity.ts and that of scripts/finalize-memory-validity.ts. */
module MemoryValidity {
  import opened Prelude

  /** The columns no statement of the backfill writes. */
  datatype Attributes = Attributes(
    namespace: string, accessLevel: string, kind: string, deletedAt: Option<Instant>,
    expiresAt: Option<Instant>, consolidatedInto: Option<Id>)

  datatype Row = Row(
    createdAt: Option<Instant>, supersedesId: Option<Id>, supersededAt: Option<Instant>,
    validFrom: Option<Instant>, validTo: Option<Instant>, attributes: Attributes)

  type Table = map<Id, Row>

  /** predecessor.superseded_at under LEFT JOIN: null without a link or without the linked row. */
  function Boundary(t: Table, r: Row): Option<Instant> {
    if r.supersedesId.Some? && r.supersedesId.value in t then t[r.supersedesId.value].supersededAt else None
  }

  /** SQL's `a <= b`, which a filter takes as false when either side is null. */
  predicate AtMost(a: Option<Instant>, b: Option<Instant>) {
    a.Some? && b.Some? && a.value <= b.value
  }

  function Either(a: Option<Instant>, b: Option<Instant>): Option<Instant> {
    if a.Some? then a else b
  }

  /** The start the backfill writes. */
  function RepairedStart(t: Table, r: Row): Option<Instant> {
    if r.supersedesId.Some? then Boundary(t, r) else Either(r.validFrom, r.createdAt)
  }

  // ---------------------------------------------------------------- backfill preflight

  predicate Consistent(t: Table, r: Row) {
    && r.createdAt.Some?
    && !AtMost(Either(r.validTo, r.supersededAt), RepairedStart(t, r))
    && (r.validTo.Some? ==> r.validTo == r.supersededAt)
    && (r.supersedesId.Some? ==> Boundary(t, r).Some?)
  }

  /** No inconsistency is counted. */
  predicate Clean(t: Table) {
    forall id :: id in t ==> Consistent(t, t[id])
  }

  predicate IsPending(t: Table, r: Row) {
    || r.validFrom.None?
    || r.validTo != r.supersededAt
    || (r.supersedesId.Some? && r.validFrom != Boundary(t, r))
  }

  function Pending(t: Table): set<Id> {
    set id | id in t && IsPending(t, t[id])
  }

  // ---------------------------------------------------------------- finalizer preflight

  predicate Dated(t: Table) {
    forall id :: id in t ==> t[id].validFrom.Some?
  }

  predicate NonEmptyIntervals(t: Table) {
    forall id :: id in t ==> !AtMost(t[id].validTo, t[id].validFrom)
  }

  predicate ClosedWhenSuperseded(t: Table) {
    forall id :: id in t ==> t[id].validTo == t[id].supersededAt
  }

  predicate Contiguous(t: Table) {
    forall id :: id in t && t[id].supersedesId.Some? ==> t[id].validFrom == Boundary(t, t[id])
  }

  predicate UniqueSuccessors(t: Table) {
    forall a, b :: a in t && b in t && t[a].supersedesId.Some? && t[a].supersedesId == t[b].supersedesId ==> a == b
  }

  /** All five counts of the finalizer are zero. */
  predicate Accepted(t: Table) {
    Dated(t) && NonEmptyIntervals(t) && ClosedWhenSuperseded(t) && Contiguous(t) && UniqueSuccessors(t)
  }

  /** The version is believed at that instant; intervals are half-open. */
  predicate ValidAt(t: Table, id: Id, at: Instant) {
    id in t && t[id].validFrom.Some? && t[id].validFrom.value <= at &&
      (t[id].validTo.Some? ==> at < t[id].validTo.value)
  }
}
