/** scripts/backfill-memory-validity.ts: a bounded, resumable repair of the validity intervals. */
module ValidityBackfill {
  import opened Prelude
  import opened Ordering
  import opened MemoryValidity

  const MAX_BATCH_SIZE: nat := 10000
  const MAX_BATCHES: nat := 100000

  function Repaired(t: Table, r: Row): Row {
    r.(validFrom := RepairedStart(t, r), validTo := r.supersededAt)
  }

  /** One UPDATE over a batch. */
  function Repair(t: Table, batch: set<Id>): (r: Table) {
    map id | id in t :: if id in batch then Repaired(t, t[id]) else t[id]
  }

  // ---------------------------------------------------------------- one update

  /** An update removes its row from the pending set exactly when the start it writes is known. */
  lemma RepairSettles(t: Table, batch: set<Id>, id: Id)
    requires id in t && id in batch
    ensures id in Pending(Repair(t, batch)) <==> RepairedStart(t, t[id]).None?
  {
  }

  /** So on a clean table each update permanently removes its rows and touches no other. */
  lemma RepairShrinksPending(t: Table, batch: set<Id>)
    requires Clean(t)
    ensures Pending(Repair(t, batch)) == Pending(t) - batch
  {
  }

  lemma RepairKeepsClean(t: Table, batch: set<Id>)
    requires Clean(t)
    ensures Clean(Repair(t, batch))
  {
  }

  /** Batches commute: the outcome is that of one update over their union. */
  lemma RepairTwice(t: Table, a: set<Id>, b: set<Id>)
    ensures Repair(Repair(t, a), b) == Repair(t, a + b)
  {
  }

  /** On a table with nothing pending the repair is the identity. */
  lemma RepairSettled(t: Table, batch: set<Id>)
    requires batch !! Pending(t)
    ensures Repair(t, batch) == t
  {
  }

  // ---------------------------------------------------------------- schedules

  /** Any succession of updates, over one run or many: each updates some rows pending at its time. */
  ghost predicate Schedule(t: Table, batches: seq<set<Id>>, end: Table)
    decreases |batches|
  {
    if |batches| == 0 then end == t
    else batches[0] <= Pending(t) && Schedule(Repair(t, batches[0]), batches[1..], end)
  }

  function TotalUpdated(batches: seq<set<Id>>): nat {
    if |batches| == 0 then 0 else |batches[0]| + TotalUpdated(batches[1..])
  }

  /** A schedule only decides which rows are repaired so far, never how. */
  lemma {:induction false} ScheduleOutcome(t: Table, batches: seq<set<Id>>, end: Table)
    requires Clean(t) && Schedule(t, batches, end)
    ensures Clean(end) && Pending(end) <= Pending(t)
    ensures end == Repair(t, Pending(t) - Pending(end))
    ensures TotalUpdated(batches) == |Pending(t)| - |Pending(end)|
    decreases |batches|
  {
    hide Repair, Pending, Clean;
    if |batches| == 0 {
      RepairSettled(t, Pending(t) - Pending(end));
    } else {
      var b := batches[0];
      var next := Repair(t, b);
      RepairKeepsClean(t, b);
      RepairShrinksPending(t, b);
      ScheduleOutcome(next, batches[1..], end);
      RepairTwice(t, b, Pending(next) - Pending(end));
      assert b + (Pending(next) - Pending(end)) == Pending(t) - Pending(end);
    }
  }

  /** Every schedule that drains the pending set ends in the same table, after the same number of
      row updates, and a further pass has nothing to do. */
  lemma SchedulesConverge(t: Table, left: seq<set<Id>>, right: seq<set<Id>>, a: Table, b: Table)
    requires Clean(t) && Schedule(t, left, a) && Schedule(t, right, b)
    requires Pending(a) == {} && Pending(b) == {}
    ensures a == b && TotalUpdated(left) == TotalUpdated(right)
    ensures forall batch :: Repair(a, batch) == a
  {
    ScheduleOutcome(t, left, a);
    ScheduleOutcome(t, right, b);
    forall batch ensures Repair(a, batch) == a {
      RepairSettled(a, batch);
    }
  }

  /** On a clean table nothing is pending exactly when the finalizer would find only duplicate
      predecessors to object to. */
  lemma DrainedIffAcceptable(t: Table)
    requires Clean(t)
    ensures Pending(t) == {} <==> Dated(t) && NonEmptyIntervals(t) && ClosedWhenSuperseded(t) && Contiguous(t)
  {
    if Pending(t) == {} {
      forall id | id in t ensures !IsPending(t, t[id]) && Consistent(t, t[id]) {
        assert id !in Pending(t);
      }
    }
  }

  /** A drained schedule from a clean table without duplicate predecessors passes the finalizer. */
  lemma DrainedIsAccepted(t: Table, batches: seq<set<Id>>, end: Table)
    requires Clean(t) && Schedule(t, batches, end)
    ensures Pending(end) == {} && UniqueSuccessors(t) <==> Accepted(end)
  {
    ScheduleOutcome(t, batches, end);
    DrainedIffAcceptable(end);
    RepairKeepsLinks(t, Pending(t) - Pending(end));
  }

  lemma RepairKeepsLinks(t: Table, batch: set<Id>)
    ensures UniqueSuccessors(t) <==> UniqueSuccessors(Repair(t, batch))
  {
    var r := Repair(t, batch);
    assert forall id :: id in t <==> id in r;
    assert forall id :: id in t ==> t[id].supersedesId == r[id].supersedesId;
  }

  /** What a pass adds to what earlier passes did since `start`. */
  lemma BatchAdvances(start: Table, before: Table, batch: set<Id>)
    requires Clean(before) && batch <= Pending(before) <= Pending(start)
    requires before == Repair(start, Pending(start) - Pending(before))
    ensures var after := Repair(before, batch);
      && Clean(after) && Pending(after) == Pending(before) - batch
      && |Pending(after)| == |Pending(before)| - |batch|
      && after == Repair(start, Pending(start) - Pending(after))
  {
    RepairKeepsClean(before, batch);
    RepairShrinksPending(before, batch);
    RepairTwice(start, Pending(start) - Pending(before), batch);
    assert Pending(start) - Pending(before) + batch == Pending(start) - (Pending(before) - batch);
  }

  // ---------------------------------------------------------------- the script

  datatype Result =
    | InvalidBatchSize
    | InvalidMaxBatches
    | InconsistentLifecycle
    | Done(updated: nat, batches: nat, pending: nat)

  /** The rows one batch locks: the first of the pending rows that nobody else holds. */
  ghost function Batch(t: Table, held: set<Id>, size: nat): (b: seq<Id>)
    ensures |b| == if |Pending(t) - held| <= size then |Pending(t) - held| else size
    ensures forall id :: id in b ==> id in Pending(t) && id !in held
  {
    var all := AscendingIds(Pending(t) - held);
    assert forall id :: id in Limit(all, size) ==> id in all;
    Limit(all, size)
  }

  lemma BatchSize(t: Table, held: set<Id>, size: nat)
    ensures var b := Batch(t, held, size);
      && Elements(b) <= Pending(t)
      && (held == {} ==> |b| == if |Pending(t)| <= size then |Pending(t)| else size)
  {
  }

  /** What so many batches of a size can update. */
  function Quota(batches: nat, size: nat): nat {
    batches * size
  }

  lemma QuotaGrows(batches: nat, size: nat)
    ensures Quota(0, size) == 0 && Quota(batches + 1, size) == Quota(batches, size) + size
  {
  }

  lemma QuotaAscends(a: nat, b: nat, size: nat)
    requires a <= b
    ensures Quota(a, size) <= Quota(b, size)
  {
  }

  /** No other transaction holds a row. */
  ghost predicate Unlocked(held: nat -> set<Id>) {
    forall i: nat :: held(i) == {}
  }

  /** Where the loop stands after so many batches. */
  ghost predicate Underway(
      start: Table, now: Table, held: nat -> set<Id>, size: nat, batches: nat, updated: nat)
  {
    && batches <= updated <= Quota(batches, size) && Clean(now) && Pending(now) <= Pending(start)
    && now == Repair(start, Pending(start) - Pending(now)) && updated == |Pending(start)| - |Pending(now)|
    && (Unlocked(held) ==> updated == |Pending(start)| || updated == Quota(batches, size))
  }

  lemma UnderwayMeans(
      start: Table, now: Table, held: nat -> set<Id>, size: nat, batches: nat, updated: nat)
    requires Underway(start, now, held, size, batches, updated)
    ensures batches <= updated <= Quota(batches, size) && Pending(now) <= Pending(start)
    ensures now == Repair(start, Pending(start) - Pending(now)) && updated == |Pending(start)| - |Pending(now)|
    ensures Unlocked(held) ==> updated == |Pending(start)| || updated == Quota(batches, size)
  {
    hide Clean, Pending, Repair, Quota;
  }

  lemma UnderwayAtFirst(t: Table, held: nat -> set<Id>, size: nat)
    requires Clean(t)
    ensures Underway(t, t, held, size, 0, 0)
  {
    hide Clean, Pending, Repair, Quota;
    RepairSettled(t, {});
    QuotaGrows(0, size);
    assert Pending(t) - Pending(t) == {};
  }

  /** A batch is a step on the way; an empty one, with nothing locked, is the end of it. */
  lemma BatchContinues(
      start: Table, now: Table, held: nat -> set<Id>, size: nat, batches: nat, updated: nat, b: seq<Id>)
    requires Underway(start, now, held, size, batches, updated) && size >= 1
    requires b == Batch(now, held(batches), size) && |Elements(b)| == |b| <= size
    ensures Underway(start, Repair(now, Elements(b)), held, size, if |b| == 0 then batches else batches + 1,
                     updated + |b|)
    ensures |b| == 0 && Unlocked(held) ==> updated == |Pending(start)|
  {
    hide Clean, Pending, Repair, Quota, Batch, Elements;
    BatchSize(now, held(batches), size);
    BatchAdvances(start, now, Elements(b));
    QuotaGrows(batches, size);
  }

  // ---------------------------------------------------------------- the same in the columns

  /** When the row it supersedes was superseded. */
  function PredecessorEnd(t: Table, r: Row): Option<Instant> {
    match r.supersedesId
    case None => None
    case Some(p) => if p in t then t[p].supersededAt else None
  }

  /** The start a row is to have. */
  function StartDue(t: Table, r: Row): Option<Instant> {
    if r.supersedesId != None then PredecessorEnd(t, r) else if r.validFrom != None then r.validFrom else r.createdAt
  }

  predicate NotAfter(a: Option<Instant>, b: Option<Instant>) {
    a != None && b != None && a.value <= b.value
  }

  /** What the preflight counts: no creation time, an end not past the start, an end that is not that of
      its supersession, or a link to a row that was not superseded. */
  predicate Faulty(t: Table, r: Row) {
    || r.createdAt == None
    || NotAfter(if r.validTo != None then r.validTo else r.supersededAt, StartDue(t, r))
    || (r.validTo != None && r.validTo != r.supersededAt)
    || (r.supersedesId != None && PredecessorEnd(t, r) == None)
  }

  /** What a batch selects. */
  predicate Waiting(t: Table, r: Row) {
    || r.validFrom == None || r.validTo != r.supersededAt
    || (r.supersedesId != None && r.validFrom != PredecessorEnd(t, r))
  }

  function WaitingIds(t: Table): set<Id> {
    set id | id in t && Waiting(t, t[id])
  }

  /** The row after its update: only the two ends of its validity are written. */
  function Fixed(t: Table, r: Row): Row {
    Row(r.createdAt, r.supersedesId, r.supersededAt, StartDue(t, r), r.supersededAt, r.attributes)
  }

  /** Of the rows that waited, those that do no more were fixed; no other row changed. */
  ghost predicate Fixes(t: Table, u: Table) {
    && u.Keys == t.Keys
    && forall id :: id in t ==>
         u[id] == if id in WaitingIds(t) && id !in WaitingIds(u) then Fixed(t, t[id]) else t[id]
  }

  /** The first free rows that wait, by id. */
  ghost predicate FixesBatch(t: Table, u: Table, held: set<Id>, size: nat, count: nat) {
    exists b: seq<Id> ::
      && |b| == count <= size && (forall i, j :: 0 <= i < j < |b| ==> b[i] < b[j])
      && (forall id :: id in b ==> id in WaitingIds(t) && id !in held)
      && (forall id :: id in WaitingIds(t) && id !in held && id !in b ==> |b| == size && forall x :: x in b ==> x < id)
      && u.Keys == t.Keys && forall id :: id in t ==> u[id] == if id in b then Fixed(t, t[id]) else t[id]
  }

  lemma WaitingIsPending(t: Table)
    ensures WaitingIds(t) == Pending(t)
    ensures Clean(t) <==> forall id :: id in t ==> !Faulty(t, t[id])
    ensures forall id :: id in t ==> Fixed(t, t[id]) == Repaired(t, t[id])
  {
    forall id | id in t
      ensures Waiting(t, t[id]) <==> IsPending(t, t[id])
      ensures Faulty(t, t[id]) <==> !Consistent(t, t[id])
      ensures Fixed(t, t[id]) == Repaired(t, t[id])
    {
    }
    hide Waiting, IsPending, Faulty, Consistent, Fixed, Repaired;
  }

  lemma RepairFixes(t: Table, u: Table)
    requires u == Repair(t, Pending(t) - Pending(u))
    ensures Fixes(t, u)
  {
    WaitingIsPending(t);
    WaitingIsPending(u);
    hide WaitingIds, Pending, Fixed, Repaired;
  }

  lemma BatchFixes(t: Table, held: set<Id>, size: nat)
    ensures FixesBatch(t, Repair(t, Elements(Batch(t, held, size))), held, size, |Batch(t, held, size)|)
  {
    WaitingIsPending(t);
    LimitIsFirst(IdLess, Pending(t) - held, AscendingIds(Pending(t) - held), size);
    FirstFixes(t, held, size, Batch(t, held, size));
  }

  lemma FirstFixes(t: Table, held: set<Id>, size: nat, b: seq<Id>)
    requires |b| <= size && SortedBy(IdLess, b) && forall id :: id in b ==> id in WaitingIds(t) - held
    requires forall id :: id in WaitingIds(t) - held && id !in b ==> |b| == size && forall x :: x in b ==> IdLess(x, id)
    ensures FixesBatch(t, Repair(t, Elements(b)), held, size, |b|)
  {
    WaitingIsPending(t);
    hide WaitingIds, Pending, Fixed, Repaired, Clean;
    forall i, j | 0 <= i < j < |b| ensures b[i] < b[j] {
      assert IdLess(b[i], b[j]);
    }
    forall id | id in WaitingIds(t) && id !in held && id !in b ensures |b| == size && forall x :: x in b ==> x < id {
      assert id in WaitingIds(t) - held && forall x :: x in b ==> IdLess(x, id);
    }
  }

  /** The finalizer accepts a table exactly when every row has a start, an end after it that is that of
      its supersession, and starts where the row it supersedes ends, and no two supersede one row. */
  lemma AcceptedIff(t: Table)
    ensures Accepted(t) <==>
      && (forall id :: id in t ==>
            && t[id].validFrom != None && (t[id].validTo != None ==> t[id].validFrom.value < t[id].validTo.value)
            && t[id].validTo == t[id].supersededAt
            && (t[id].supersedesId != None ==> t[id].validFrom == PredecessorEnd(t, t[id])))
      && forall a, b :: a in t && b in t && a != b ==>
           t[a].supersedesId == None || t[a].supersedesId != t[b].supersedesId
  {
  }

  lemma DifferenceSize(a: set<Id>, b: set<Id>)
    requires b <= a
    ensures |a - b| == |a| - |b|
  {
    assert a == b + (a - b);
  }

  class MemoriesTable {
    var rows: Table

    constructor (initial: Table)
      ensures rows == initial
    {
      rows := initial;
    }

    /** One statement; `held` are the rows other transactions hold locked. */
    method RepairBatch(size: nat, held: set<Id>) returns (count: nat)
      modifies this
      ensures var b := Batch(old(rows), held, size);
        count == |b| && rows == Repair(old(rows), Elements(b)) && |Elements(b)| == |b|
      ensures FixesBatch(old(rows), rows, held, size, count)
    {
      BatchFixes(rows, held, size);
      hide FixesBatch;
      var pending := ListIds(Pending(rows) - held);
      var batch := Limit(pending, size);
      SortedIsDistinct(IdLess, batch);
      rows := Repair(rows, Elements(batch));
      count := |batch|;
    }

    /** The batches of one run, until one finds nothing or all are spent. */
    method RepairBatches(batchSize: nat, maxBatches: nat, held: nat -> set<Id>) returns (updated: nat, batches: nat)
      requires Clean(rows) && batchSize >= 1
      modifies this
      ensures rows == Repair(old(rows), Pending(old(rows)) - Pending(rows)) && Pending(rows) <= Pending(old(rows))
      ensures updated == |Pending(old(rows))| - |Pending(rows)|
      ensures batches <= maxBatches && batches <= updated <= Quota(batches, batchSize)
      ensures Unlocked(held) ==> updated == |Pending(old(rows))| || updated == Quota(maxBatches, batchSize)
    {
      hide Repair, Pending, Batch, Clean, Quota, FixesBatch, Elements, Underway;
      ghost var start := rows;
      updated, batches := 0, 0;
      UnderwayAtFirst(rows, held, batchSize);
      while batches < maxBatches
        invariant batches <= maxBatches && Underway(start, rows, held, batchSize, batches, updated)
      {
        ghost var before := rows;
        var count := RepairBatch(batchSize, held(batches));
        BatchContinues(start, before, held, batchSize, batches, updated, Batch(before, held(batches), batchSize));
        if count == 0 {
          UnderwayMeans(start, rows, held, batchSize, batches, updated);
          return;
        }
        batches := batches + 1;
        updated := updated + count;
      }
      UnderwayMeans(start, rows, held, batchSize, batches, updated);
    }

    /** backfillMemoryValidity; `held(i)` is what is locked elsewhere at the i-th statement. */
    method Backfill(batchSize: int, maxBatches: int, held: nat -> set<Id>) returns (result: Result)
      modifies this
      ensures result.InvalidBatchSize? <==> !(1 <= batchSize <= MAX_BATCH_SIZE)
      ensures result.InvalidMaxBatches? <==> 1 <= batchSize <= MAX_BATCH_SIZE && !(1 <= maxBatches <= MAX_BATCHES)
      ensures result.InconsistentLifecycle? <==>
        1 <= batchSize <= MAX_BATCH_SIZE && 1 <= maxBatches <= MAX_BATCHES && !Clean(old(rows))
      ensures result.InconsistentLifecycle? <==>
        && 1 <= batchSize <= 10_000 && 1 <= maxBatches <= 100_000
        && exists id :: id in old(rows) && Faulty(old(rows), old(rows)[id])
      ensures result.Done? ==>
        && Fixes(old(rows), rows) && WaitingIds(rows) <= WaitingIds(old(rows))
        && result.pending == |WaitingIds(rows)| && result.updated == |WaitingIds(old(rows)) - WaitingIds(rows)|
      ensures !result.Done? ==> rows == old(rows)
      ensures result.Done? ==>
        && rows == Repair(old(rows), Pending(old(rows)) - Pending(rows))
        && Pending(rows) <= Pending(old(rows))
        && result.updated == |Pending(old(rows))| - |Pending(rows)|
        && result.pending == |Pending(rows)|
        && result.batches <= maxBatches && result.batches <= result.updated <= result.batches * batchSize
      ensures result.Done? && Unlocked(held) ==>
        result.updated ==
          if |Pending(old(rows))| <= maxBatches * batchSize then |Pending(old(rows))| else maxBatches * batchSize
    {
      WaitingIsPending(rows);
      if batchSize < 1 || batchSize > MAX_BATCH_SIZE { return InvalidBatchSize; }
      if maxBatches < 1 || maxBatches > MAX_BATCHES { return InvalidMaxBatches; }
      if !Clean(rows) { return InconsistentLifecycle; }
      hide Repair, Pending, Consistent, Clean, Fixes, WaitingIds, Faulty, FixesBatch;
      var updated, batches := RepairBatches(batchSize, maxBatches, held);
      QuotaAscends(batches, maxBatches, batchSize);
      SubsetSize(Pending(rows), Pending(old(rows)));
      RepairFixes(old(rows), rows);
      WaitingIsPending(rows);
      DifferenceSize(Pending(old(rows)), Pending(rows));
      result := Done(updated, batches, |Pending(rows)|);
    }
  }
}
