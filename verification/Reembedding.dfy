/** scripts/reembed-all.ts: a cursor scan that re-embeds every eligible row and accounts for each
    row it selected, while other writers, locks and the provider interfere. */
module Reembedding {
  import opened Prelude
  import opened Ordering

  const UUIDS: nat := 0x1_0000_0000_0000_0000_0000_0000_0000_0000

  datatype Profile = Profile(provider: string, model: string, dimensions: nat)

  /** `live`: not deleted, expired, superseded or consolidated. */
  datatype Row = Row(
    namespace: string, content: string, updatedAt: Instant, revision: nat, live: bool,
    embedding: Option<nat>, provider: Option<string>, model: Option<string>, dimensions: Option<nat>)

  type Table = t: map<Id, Row> | forall id :: id in t ==> id < UUIDS witness map[]

  /** No namespaces means all of them. */
  datatype Scope = Scope(namespaces: set<string>, profile: Profile, fullRepair: bool)

  predicate InScope(r: Row, s: Scope) {
    r.live && (s.namespaces == {} || r.namespace in s.namespaces)
  }

  /** SQL's `a <> b`, which is not true of a null. */
  predicate Differs<T(==)>(a: Option<T>, b: T) {
    a.Some? && a.value != b
  }

  predicate Eligible(r: Row, s: Scope) {
    || s.fullRepair
    || r.embedding.None? || r.provider.None? || r.model.None? || r.dimensions.None?
    || Differs(r.provider, s.profile.provider)
    || Differs(r.model, s.profile.model)
    || Differs(r.dimensions, s.profile.dimensions)
  }

  function Selectable(t: Table, s: Scope, after: Option<Id>): set<Id> {
    set id | id in t && InScope(t[id], s) && Eligible(t[id], s) && (after.None? || id > after.value)
  }

  // ---------------------------------------------------------------- verification counts

  function Unknown(t: Table, s: Scope): set<Id> {
    set id | id in t && InScope(t[id], s) &&
      (t[id].embedding.None? || t[id].provider.None? || t[id].model.None? || t[id].dimensions.None?)
  }

  function LegacyRows(t: Table, s: Scope): set<Id> {
    set id | id in t && InScope(t[id], s) && t[id].provider.Some? &&
      (Differs(t[id].provider, s.profile.provider) || Differs(t[id].model, s.profile.model)
       || Differs(t[id].dimensions, s.profile.dimensions))
  }

  function VerifyCounts(t: Table, s: Scope): (nat, nat) {
    (|Unknown(t, s)|, |LegacyRows(t, s)|)
  }

  /** Without full repair the counts are both zero exactly when no row is eligible; with it, when
      every row in scope would not have been eligible without. */
  lemma CountsZeroIffNoneEligible(t: Table, s: Scope)
    ensures VerifyCounts(t, s) == (0, 0) <==> Selectable(t, s.(fullRepair := false), None) == {}
  {
    if VerifyCounts(t, s) == (0, 0) {
      assert Unknown(t, s) == {} && LegacyRows(t, s) == {};
      forall id | id in t && InScope(t[id], s) ensures !Eligible(t[id], s.(fullRepair := false)) {
        assert id !in Unknown(t, s) && id !in LegacyRows(t, s);
      }
    }
    if Selectable(t, s.(fullRepair := false), None) == {} {
      forall id | id in t && InScope(t[id], s) ensures id !in Unknown(t, s) && id !in LegacyRows(t, s) {
        assert id !in Selectable(t, s.(fullRepair := false), None);
      }
    }
  }

  /** For a scope, over all tables: the counts are zero exactly when no row is eligible, unless the
      repair is full. */
  lemma CountsMeanNoneEligibleIff(s: Scope)
    ensures (forall t :: VerifyCounts(t, s) == (0, 0) <==> Selectable(t, s, None) == {}) <==> !s.fullRepair
  {
    if s.fullRepair {
      var t := CurrentRow(s);
      assert !(VerifyCounts(t, s) == (0, 0) <==> Selectable(t, s, None) == {});
    } else {
      forall t ensures VerifyCounts(t, s) == (0, 0) <==> Selectable(t, s, None) == {} {
        CountsZeroIffNoneEligible(t, s);
        assert s.(fullRepair := false) == s;
      }
    }
  }

  /** A row in scope that a full repair takes, though nothing is wrong with it. */
  lemma CurrentRow(s: Scope) returns (t: Table)
    requires s.fullRepair
    ensures VerifyCounts(t, s) == (0, 0) && Selectable(t, s, None) == {0}
  {
    var namespace := "";
    if s.namespaces != {} { namespace :| namespace in s.namespaces; }
    t := map[0 := Row(namespace, "", 0, 0, true, Some(0), Some(s.profile.provider), Some(s.profile.model),
                      Some(s.profile.dimensions))];
    assert Unknown(t, s) == {} && LegacyRows(t, s) == {};
  }

  // ---------------------------------------------------------------- accounting

  datatype Category = ConcurrentChange | DatabaseError | ProviderError | CountMismatch | DimensionMismatch

  datatype Failure = Failure(id: Id, namespace: string, category: Category)

  /** Counts by namespace are multisets of namespaces. */
  datatype Tally = Tally(
      selected: multiset<string>, succeeded: multiset<string>, failed: multiset<string>, errors: seq<Failure>)

  function HardErrors(errors: seq<Failure>): nat {
    if |errors| == 0 then 0
    else HardErrors(errors[..|errors| - 1]) + if errors[|errors| - 1].category.ConcurrentChange? then 0 else 1
  }

  function Namespaces(rows: seq<(Id, Row)>): multiset<string> {
    if |rows| == 0 then multiset{} else Namespaces(rows[..|rows| - 1]) + multiset{rows[|rows| - 1].1.namespace}
  }

  /** From `a` to `b` rows of those namespaces were accounted for, each once. */
  predicate Accounted(a: Tally, b: Tally, namespaces: multiset<string>) {
    b.succeeded + b.failed == a.succeeded + a.failed + namespaces
    && |b.errors| + |a.failed| == |a.errors| + |b.failed|
  }

  lemma AccountedMore(a: Tally, b: Tally, c: Tally, m: multiset<string>, n: multiset<string>)
    requires Accounted(a, b, m) && Accounted(b, c, n)
    ensures Accounted(a, c, m + n)
  {
  }

  /** Every row selected so far is accounted for once. */
  predicate Balanced(c: Tally) {
    c.selected == c.succeeded + c.failed && |c.errors| == |c.failed|
  }

  // ---------------------------------------------------------------- the environment

  datatype Answer = Vector(embedding: nat) | NoVector(category: Category)

  /** What happens around the script: what other writers make of the table before its n-th
      statement, the rows they hold locked then, what the provider ends up answering for a row (with
      its batch or, if that failed, alone), whether its write fails, and the clock. */
  datatype World = World(
    interfere: (nat, Table) -> Table, held: nat -> set<Id>,
    answer: Id -> Answer, faulty: Id -> bool, clock: Id -> Instant)

  /** Nobody interferes and nothing fails. */
  ghost predicate Quiet(w: World) {
    && (forall n, t :: w.interfere(n, t) == t) && (forall n :: w.held(n) == {})
    && (forall id :: w.answer(id).Vector? && !w.faulty(id))
  }

  function Embedded(r: Row, s: Scope, embedding: nat, now: Instant): Row {
    r.(embedding := Some(embedding), provider := Some(s.profile.provider), model := Some(s.profile.model),
       dimensions := Some(s.profile.dimensions), updatedAt := now)
  }

  function Reembedded(t: Table, s: Scope, w: World, ids: set<Id>): Table
    requires forall id :: id in ids ==> w.answer(id).Vector?
  {
    map id | id in t :: if id in ids then Embedded(t[id], s, w.answer(id).embedding, w.clock(id)) else t[id]
  }

  /** The row is still what was selected: the guards of the UPDATE. */
  predicate Unchanged(t: Table, id: Id, seen: Row, s: Scope) {
    id in t && InScope(t[id], s) && Eligible(t[id], s)
    && t[id].updatedAt == seen.updatedAt && t[id].content == seen.content && t[id].revision == seen.revision
  }

  datatype Options = Options(batchSize: int, maxErrors: Option<int>, dryRun: bool)

  datatype Result = InvalidOptions | TooManyErrors | Summary(selected: nat, tally: Tally, verification: (nat, nat))

  predicate ValidOptions(s: Scope, o: Options) {
    o.batchSize >= 1 && s.profile.dimensions >= 1 && (o.maxErrors.Some? ==> o.maxErrors.value >= 0)
  }

  function Remaining(after: Option<Id>): int {
    if after.None? then UUIDS + 1 else UUIDS - after.value
  }

  // ---------------------------------------------------------------- the scan

  function RowsOf(t: Table, ids: seq<Id>): (r: seq<(Id, Row)>)
    requires forall id :: id in ids ==> id in t
    ensures |r| == |ids| && forall i :: 0 <= i < |ids| ==> r[i] == (ids[i], t[ids[i]])
  {
    seq(|ids|, i requires 0 <= i < |ids| => (ids[i], t[ids[i]]))
  }

  lemma NoneFree(wanted: set<Id>, held: set<Id>)
    ensures wanted - held == {} <==> wanted <= held
  {
    if wanted - held == {} {
      forall id | id in wanted ensures id in held {
        assert id !in wanted - held;
      }
    }
  }

  /** The ids of a batch: the first selectable ones that nobody holds. */
  ghost function BatchIds(t: Table, s: Scope, after: Option<Id>, size: nat, held: set<Id>): (b: seq<Id>)
    ensures SortedBy(IdLess, b) && forall id :: id in b ==> id in Selectable(t, s, after)
    ensures |b| == 0 <==> size == 0 || Selectable(t, s, after) <= held
  {
    var free := Selectable(t, s, after) - held;
    var all := AscendingIds(free);
    assert forall id :: id in Limit(all, size) ==> id in all;
    NoneFree(Selectable(t, s, after), held);
    assert |all| == |free| && (|free| == 0 <==> free == {});
    Limit(all, size)
  }

  /** A batch passes no selectable row by, but those held. */
  lemma BatchPassesNone(t: Table, s: Scope, after: Option<Id>, size: nat, held: set<Id>, id: Id)
    requires |BatchIds(t, s, after, size, held)| > 0 && id in Selectable(t, s, after) && id !in held
    requires var b := BatchIds(t, s, after, size, held); id <= b[|b| - 1]
    ensures id in BatchIds(t, s, after, size, held)
  {
    var all := AscendingIds(Selectable(t, s, after) - held);
    var b := BatchIds(t, s, after, size, held);
    assert id in all;
    assert forall j :: |b| <= j < |all| ==> IdLess(all[|b| - 1], all[j]);
    var i :| 0 <= i < |all| && all[i] == id;

  }

  /** Where a quiet scan stands: it has selected every row selectable at the start up to the cursor,
      re-embedded those unless it is a dry run, and touched no other. */
  ghost predicate Swept(
      start: Table, rows: Table, s: Scope, w: World, dryRun: bool, chosen: set<Id>, after: Option<Id>) {
    && (forall id :: w.answer(id).Vector?)
    && rows == Reembedded(start, s, w, if dryRun then {} else chosen)
    && UpTo(Selectable(start, s, None), chosen, after)
  }

  /** Ahead of the cursor a quiet scan sees the table as it was. */
  lemma SweptSelectable(start: Table, rows: Table, s: Scope, w: World, dryRun: bool, chosen: set<Id>, after: Option<Id>)
    requires Swept(start, rows, s, w, dryRun, chosen, after)
    ensures Selectable(rows, s, after) == Selectable(start, s, None) - chosen
    ensures forall id :: id in Selectable(rows, s, after) ==> rows[id] == start[id]
  {
  }

  lemma SweptFurther(
      start: Table, before: Table, rows: Table, s: Scope, w: World, dryRun: bool, chosen: set<Id>,
      after: Option<Id>, size: nat)
    requires Swept(start, before, s, w, dryRun, chosen, after) && |BatchIds(before, s, after, size, {})| > 0
    requires rows == Reembedded(start, s, w,
      if dryRun then {} else chosen + Elements(BatchIds(before, s, after, size, {})))
    ensures var b := BatchIds(before, s, after, size, {});
      Swept(start, rows, s, w, dryRun, chosen + Elements(b), Some(b[|b| - 1]))
  {
    SweptCut(start, before, s, w, dryRun, chosen, after, size);
    hide BatchIds, Reembedded, Selectable;
  }

  /** Of the rows selectable at the start, those up to the cursor. */
  ghost predicate UpTo(all: set<Id>, chosen: set<Id>, after: Option<Id>) {
    forall id :: id in chosen <==> id in all && after.Some? && id <= after.value
  }

  lemma SweptCut(
      start: Table, before: Table, s: Scope, w: World, dryRun: bool, chosen: set<Id>, after: Option<Id>, size: nat)
    requires Swept(start, before, s, w, dryRun, chosen, after) && |BatchIds(before, s, after, size, {})| > 0
    ensures var b := BatchIds(before, s, after, size, {});
      UpTo(Selectable(start, s, None), chosen + Elements(b), Some(b[|b| - 1]))
  {
    SweptSelectable(start, before, s, w, dryRun, chosen, after);
    LastOfBatch(before, s, after, size, {});
    BatchCutsAt(before, s, after, size);
    hide BatchIds, Reembedded, Selectable, Swept, Elements;
    CutAt(Selectable(start, s, None), chosen, after, BatchIds(before, s, after, size, {}));
  }

  /** A batch that nothing is held from is what was selectable, up to its last id. */
  lemma BatchCutsAt(t: Table, s: Scope, after: Option<Id>, size: nat)
    requires |BatchIds(t, s, after, size, {})| > 0
    ensures var b := BatchIds(t, s, after, size, {});
      forall id :: id in b <==> id in Selectable(t, s, after) && id <= b[|b| - 1]
  {
  }

  lemma CutAt(all: set<Id>, chosen: set<Id>, after: Option<Id>, b: seq<Id>)
    requires |b| > 0 && (after.Some? ==> after.value < b[|b| - 1]) && UpTo(all, chosen, after)
    requires forall id :: id in b <==> id in all - chosen && id <= b[|b| - 1]
    ensures UpTo(all, chosen + Elements(b), Some(b[|b| - 1]))
  {
  }

  lemma LastOfBatch(t: Table, s: Scope, after: Option<Id>, size: nat, held: set<Id>)
    requires |BatchIds(t, s, after, size, held)| > 0
    ensures var b := BatchIds(t, s, after, size, held);
      (forall id :: id in b ==> id <= b[|b| - 1]) && (after.Some? ==> after.value < b[|b| - 1])
  {
    var b := BatchIds(t, s, after, size, held);
    assert b[|b| - 1] in b;
    AheadOfCursor(t, s, after, b[|b| - 1]);
    hide BatchIds, Selectable;
    forall id | id in b ensures id <= b[|b| - 1] {
      var i :| 0 <= i < |b| && b[i] == id;
    }
  }

  lemma AheadOfCursor(t: Table, s: Scope, after: Option<Id>, id: Id)
    requires id in Selectable(t, s, after)
    ensures after.Some? ==> id > after.value
  {
  }

  /** When a quiet scan finds nothing more, everything eligible at the start was selected; unless it
      was a dry run, all of it is re-embedded and the verification counts are zero. */
  lemma SweptToTheEnd(start: Table, rows: Table, s: Scope, w: World, dryRun: bool, chosen: set<Id>, after: Option<Id>)
    requires Swept(start, rows, s, w, dryRun, chosen, after) && Selectable(rows, s, after) == {}
    ensures chosen == Selectable(start, s, None)
    ensures dryRun ==> rows == start
    ensures !dryRun ==> rows == Reembedded(start, s, w, Selectable(start, s, None)) && VerifyCounts(rows, s) == (0, 0)
  {
    SweptSelectable(start, rows, s, w, dryRun, chosen, after);
    assert forall id :: id in Selectable(start, s, None) ==> id in chosen;
    assert chosen == Selectable(start, s, None);
    ReembeddedIsComplete(start, s, w);
    CountsZeroIffNoneEligible(rows, s);
  }

  lemma ReembeddedIsComplete(t: Table, s: Scope, w: World)
    requires forall id :: id in Selectable(t, s, None) ==> w.answer(id).Vector?
    ensures Selectable(Reembedded(t, s, w, Selectable(t, s, None)), s.(fullRepair := false), None) == {}
  {
  }

  /** One SELECT: the table it saw, its cursor and limit, and the rows held by others. */
  datatype Selection = Selection(seen: Table, after: Option<Id>, size: nat, held: set<Id>)

  ghost function IdsSelected(q: Selection, s: Scope): seq<Id> {
    BatchIds(q.seen, s, q.after, q.size, q.held)
  }

  ghost function NamespacesSelected(q: Selection, s: Scope): multiset<string> {
    Namespaces(RowsOf(q.seen, IdsSelected(q, s)))
  }

  /** The ids a scan selected, batch after batch. */
  ghost function AllIds(qs: seq<Selection>, s: Scope): seq<Id> {
    if |qs| == 0 then [] else AllIds(qs[..|qs| - 1], s) + IdsSelected(qs[|qs| - 1], s)
  }

  ghost function AllNamespaces(qs: seq<Selection>, s: Scope): multiset<string> {
    if |qs| == 0 then multiset{} else AllNamespaces(qs[..|qs| - 1], s) + NamespacesSelected(qs[|qs| - 1], s)
  }

  /** Where a scan that made those selections continues. */
  ghost function CursorAfter(qs: seq<Selection>, s: Scope): Option<Id> {
    if |qs| == 0 || |IdsSelected(qs[|qs| - 1], s)| == 0 then None
    else Some(IdsSelected(qs[|qs| - 1], s)[|IdsSelected(qs[|qs| - 1], s)| - 1])
  }

  /** Every selection but the first starts after the last id of the one before. */
  ghost predicate IsScan(qs: seq<Selection>, s: Scope) {
    |qs| > 0 ==> IsScan(qs[..|qs| - 1], s) && qs[|qs| - 1].after == CursorAfter(qs[..|qs| - 1], s)
  }

  /** The selections are one scan, and these are its ids, their namespaces and its cursor. */
  ghost predicate Traced(
      qs: seq<Selection>, s: Scope, chosen: seq<Id>, namespaces: multiset<string>, cursor: Option<Id>) {
    IsScan(qs, s) && chosen == AllIds(qs, s) && namespaces == AllNamespaces(qs, s) && cursor == CursorAfter(qs, s)
  }

  lemma TracedSnoc(
    qs: seq<Selection>, s: Scope, chosen: seq<Id>, namespaces: multiset<string>, cursor: Option<Id>, q: Selection)
    requires Traced(qs, s, chosen, namespaces, cursor) && q.after == cursor
    ensures var ids := IdsSelected(q, s);
      Traced(qs + [q], s, chosen + ids, namespaces + NamespacesSelected(q, s),
        if |ids| == 0 then None else Some(ids[|ids| - 1]))
  {
    hide IdsSelected, NamespacesSelected;
    assert (qs + [q])[..|qs|] == qs;
  }

  /** Why the row's write fails; None if it takes effect. */
  function WriteFailure(t: Table, row: (Id, Row), s: Scope, w: World): Option<Category> {
    if w.faulty(row.0) then Some(DatabaseError)
    else if !Unchanged(t, row.0, row.1, s) then Some(ConcurrentChange)
    else None
  }

  function Tallied(c: Tally, row: (Id, Row), failure: Option<Category>): Tally {
    if failure.None? then c.(succeeded := c.succeeded + multiset{row.1.namespace})
    else c.(failed := c.failed + multiset{row.1.namespace},
            errors := c.errors + [Failure(row.0, row.1.namespace, failure.value)])
  }

  // ---------------------------------------------------------------- the run, in the columns

  /** The row lives in the scope and is not embedded under the profile, or all are to be repaired. */
  predicate Due(r: Row, s: Scope) {
    && r.live && (|s.namespaces| == 0 || r.namespace in s.namespaces)
    && (s.fullRepair || r.embedding == None || r.provider != Some(s.profile.provider)
        || r.model != Some(s.profile.model) || r.dimensions != Some(s.profile.dimensions))
  }

  lemma DueIff(r: Row, s: Scope)
    ensures Due(r, s) <==> InScope(r, s) && Eligible(r, s)
  {
    assert |s.namespaces| == 0 <==> s.namespaces == {};
  }

  /** The first rows past the cursor that are due and that nobody holds, by id. */
  ghost predicate IsBatch(t: Table, s: Scope, after: Option<Id>, size: nat, held: set<Id>, batch: seq<(Id, Row)>) {
    && |batch| <= size && (forall i, j :: 0 <= i < j < |batch| ==> batch[i].0 < batch[j].0)
    && (forall i :: 0 <= i < |batch| ==>
          batch[i].0 in t && batch[i].1 == t[batch[i].0] && Waits(t, s, after, held, batch[i].0))
    && forall id :: Waits(t, s, after, held, id) ==>
         (exists i :: 0 <= i < |batch| && batch[i].0 == id)
         || (|batch| == size && forall i :: 0 <= i < |batch| ==> batch[i].0 < id)
  }

  predicate Waits(t: Table, s: Scope, after: Option<Id>, held: set<Id>, id: Id) {
    id in t && Due(t[id], s) && id !in held && (after == None || after.value < id)
  }

  lemma SelectionIsBatch(t: Table, s: Scope, after: Option<Id>, size: nat, held: set<Id>)
    ensures IsBatch(t, s, after, size, held, RowsOf(t, BatchIds(t, s, after, size, held)))
  {
    var free := Selectable(t, s, after) - held;
    LimitIsFirst(IdLess, free, AscendingIds(free), size);
    forall id ensures id in free <==> Waits(t, s, after, held, id) {
      if id in t { DueIff(t[id], s); }
    }
    FirstIsBatch(t, s, after, size, held, free, BatchIds(t, s, after, size, held));
  }

  lemma FirstIsBatch(t: Table, s: Scope, after: Option<Id>, size: nat, held: set<Id>, free: set<Id>, b: seq<Id>)
    requires forall id :: id in free <==> Waits(t, s, after, held, id)
    requires |b| <= size && SortedBy(IdLess, b) && forall id :: id in b ==> id in free
    requires forall y :: y in free && y !in b ==> |b| == size && forall x :: x in b ==> IdLess(x, y)
    ensures (forall id :: id in b ==> id in t) && IsBatch(t, s, after, size, held, RowsOf(t, b))
  {
    forall id | id in free ensures id in t { assert Waits(t, s, after, held, id); }
    hide Waits;
    forall i, j | 0 <= i < j < |b| ensures b[i] < b[j] {
      assert IdLess(b[i], b[j]);
    }
    forall i | 0 <= i < |b| ensures b[i] in b && Waits(t, s, after, held, b[i]) {
    }
  }

  /** A vector written: the row as selected, as it was just before, and after. */
  datatype Write = Write(id: Id, seen: Row, before: Row, after: Row)

  /** Just before, the row was due and unchanged since its selection; only the vector, its descriptor
      and the time of the update were written. */
  predicate Guarded(x: Write, s: Scope, w: World) {
    && Due(x.before, s) && x.before.content == x.seen.content && x.before.revision == x.seen.revision
    && x.before.updatedAt == x.seen.updatedAt && w.answer(x.id).Vector?
    && x.after == Row(x.before.namespace, x.before.content, w.clock(x.id), x.before.revision, x.before.live,
                      Some(w.answer(x.id).embedding), Some(s.profile.provider), Some(s.profile.model),
                      Some(s.profile.dimensions))
  }

  /** The row is counted as succeeded, or as failed with one error. */
  predicate CountsOnce(a: Tally, b: Tally, row: (Id, Row)) {
    && b.selected == a.selected
    && (|| (b.succeeded == a.succeeded + multiset{row.1.namespace} && b.failed == a.failed && b.errors == a.errors)
        || (b.succeeded == a.succeeded && b.failed == a.failed + multiset{row.1.namespace}
            && |b.errors| == |a.errors| + 1 && b.errors[..|a.errors|] == a.errors
            && b.errors[|a.errors|].id == row.0 && b.errors[|a.errors|].namespace == row.1.namespace))
  }

  ghost predicate AllGuarded(ws: seq<Write>, batch: seq<(Id, Row)>, s: Scope, w: World) {
    forall x :: x in ws ==> Guarded(x, s, w) && (x.id, x.seen) in batch
  }

  lemma NoWrites(ws: seq<Write>, batch: seq<(Id, Row)>, s: Scope, w: World)
    ensures AllGuarded(ws[|ws|..], batch, s, w)
  {
  }

  lemma MoreWrites(a: seq<Write>, b: seq<Write>, c: seq<Write>, batch: seq<(Id, Row)>, i: nat, s: Scope, w: World)
    requires a <= b <= c && i < |batch|
    requires AllGuarded(b[|a|..], batch, s, w) && AllGuarded(c[|b|..], [batch[i]], s, w)
    ensures AllGuarded(c[|a|..], batch, s, w)
  {
    hide Guarded;
    assert c[|a|..] == b[|a|..] + c[|b|..];
  }

  /** The write is of a row some selection returned. */
  ghost predicate Selected(x: Write, qs: seq<Selection>, s: Scope) {
    exists i :: 0 <= i < |qs| && x.id in qs[i].seen && x.seen == qs[i].seen[x.id]
                && Waits(qs[i].seen, s, qs[i].after, qs[i].held, x.id)
  }

  ghost predicate AllSelected(ws: seq<Write>, qs: seq<Selection>, s: Scope, w: World) {
    forall x :: x in ws ==> Guarded(x, s, w) && Selected(x, qs, s)
  }

  lemma NothingWritten(ws: seq<Write>, s: Scope, w: World)
    ensures AllSelected(ws[|ws|..], [], s, w)
  {
  }

  lemma NoSelected(ws: seq<Write>, q: Selection, s: Scope, w: World)
    ensures AllSelected(ws[|ws|..], [q], s, w)
  {
  }

  lemma GuardedIsSelected(ws: seq<Write>, batch: seq<(Id, Row)>, q: Selection, s: Scope, w: World)
    requires AllGuarded(ws, batch, s, w) && IsBatch(q.seen, s, q.after, q.size, q.held, batch)
    ensures AllSelected(ws, [q], s, w)
  {
    hide Guarded, Waits;
    forall x | x in ws ensures Selected(x, [q], s) {
      var i :| 0 <= i < |batch| && batch[i] == (x.id, x.seen);
      assert [q][0] == q;
    }
  }

  lemma MoreSelected(
      a: seq<Write>, b: seq<Write>, c: seq<Write>, qs: seq<Selection>, q: Selection, s: Scope, w: World)
    requires a <= b <= c && AllSelected(b[|a|..], qs, s, w) && AllSelected(c[|b|..], [q], s, w)
    ensures AllSelected(c[|a|..], qs + [q], s, w)
  {
    hide Guarded, Waits;
    assert c[|a|..] == b[|a|..] + c[|b|..];
    forall x | x in c[|a|..] ensures Selected(x, qs + [q], s) {
      if x in b[|a|..] {
        var i :| 0 <= i < |qs| && x.id in qs[i].seen && x.seen == qs[i].seen[x.id]
                 && Waits(qs[i].seen, s, qs[i].after, qs[i].held, x.id);
        assert (qs + [q])[i] == qs[i];
      } else {
        assert (qs + [q])[|qs|] == q;
      }
    }
  }

  function Hard(errors: seq<Failure>): nat {
    |set i | 0 <= i < |errors| && errors[i].category != ConcurrentChange|
  }

  lemma {:induction false} HardIs(errors: seq<Failure>)
    ensures HardErrors(errors) == Hard(errors)
  {
    if |errors| > 0 {
      var init, last := errors[..|errors| - 1], errors[|errors| - 1];
      HardIs(init);
      var before := set i | 0 <= i < |init| && init[i].category != ConcurrentChange;
      var all := set i | 0 <= i < |errors| && errors[i].category != ConcurrentChange;
      assert all == if last.category != ConcurrentChange then before + {|init|} else before;
    }
  }

  /** Rows in scope without a vector or a full descriptor. */
  function UnknownIds(t: Table, s: Scope): set<Id> {
    set id | id in t && t[id].live && (|s.namespaces| == 0 || t[id].namespace in s.namespaces)
      && (t[id].embedding == None || t[id].provider == None || t[id].model == None || t[id].dimensions == None)
  }

  /** Rows in scope with a provider where something known is another than the profile's. */
  function LegacyIds(t: Table, s: Scope): set<Id> {
    set id | id in t && t[id].live && (|s.namespaces| == 0 || t[id].namespace in s.namespaces)
      && t[id].provider != None
      && (t[id].provider != Some(s.profile.provider)
          || (t[id].model != None && t[id].model != Some(s.profile.model))
          || (t[id].dimensions != None && t[id].dimensions != Some(s.profile.dimensions)))
  }

  function Outdated(t: Table, s: Scope): (nat, nat) {
    (|UnknownIds(t, s)|, |LegacyIds(t, s)|)
  }

  lemma OutdatedIs(t: Table, s: Scope)
    ensures VerifyCounts(t, s) == Outdated(t, s)
  {
    assert |s.namespaces| == 0 <==> s.namespaces == {};
    assert Unknown(t, s) == UnknownIds(t, s);
    assert LegacyRows(t, s) == LegacyIds(t, s);
  }

  class Maintenance {
    var rows: Table
    /** Statements issued so far. */
    var tick: nat
    /** The selections among them. */
    ghost var selections: seq<Selection>
    /** The vectors written. */
    ghost var writes: seq<Write>

    constructor (initial: Table)
      ensures rows == initial && tick == 0 && selections == [] && writes == []
    {
      rows, tick, selections, writes := initial, 0, [], [];
    }

    /** The others' turn before a statement. */
    method Wait(w: World)
      modifies this`rows, this`tick
      ensures tick == old(tick) + 1 && rows == w.interfere(old(tick), old(rows))
    {
      rows := w.interfere(tick, rows);
      tick := tick + 1;
    }

    method SelectBatch(s: Scope, after: Option<Id>, size: nat, w: World) returns (batch: seq<(Id, Row)>)
      modifies this`rows, this`tick, this`selections
      ensures tick == old(tick) + 1 && rows == w.interfere(old(tick), old(rows))
      ensures IsBatch(rows, s, after, size, w.held(old(tick)), batch)
      ensures batch == RowsOf(rows, BatchIds(rows, s, after, size, w.held(old(tick))))
      ensures selections == old(selections) + [Selection(rows, after, size, w.held(old(tick)))]
    {
      var held := w.held(tick);
      Wait(w);
      selections := selections + [Selection(rows, after, size, held)];
      SelectionIsBatch(rows, s, after, size, held);
      var ids := ListIds(Selectable(rows, s, after) - held);
      ghost var b := BatchIds(rows, s, after, size, held);
      batch := RowsOf(rows, Limit(ids, size));
    }

    /** One guarded UPDATE; None when it took effect. */
    method WriteOne(id: Id, seen: Row, embedding: nat, s: Scope, w: World) returns (failure: Option<Category>)
      modifies this`rows, this`tick, this`writes
      ensures var t := w.interfere(old(tick), old(rows));
        && (failure == Some(DatabaseError) <==> w.faulty(id))
        && (failure == None <==>
              && !w.faulty(id) && id in t && Due(t[id], s) && t[id].content == seen.content
              && t[id].revision == seen.revision && t[id].updatedAt == seen.updatedAt)
        && (failure in {None, Some(DatabaseError), Some(ConcurrentChange)})
        && (failure == None ==>
              && id in rows && rows == t[id := rows[id]] && writes == old(writes) + [Write(id, seen, t[id], rows[id])]
              && rows[id] == Row(t[id].namespace, t[id].content, w.clock(id), t[id].revision, t[id].live,
                                 Some(embedding), Some(s.profile.provider), Some(s.profile.model),
                                 Some(s.profile.dimensions)))
        && (failure != None ==> rows == t && writes == old(writes))
      ensures var t := w.interfere(old(tick), old(rows));
        && tick == old(tick) + 1 && failure == WriteFailure(t, (id, seen), s, w)
        && (failure.Some? ==> rows == t)
        && (failure.None? ==> rows == t[id := Embedded(t[id], s, embedding, w.clock(id))])
    {
      Wait(w);
      if id in rows { DueIff(rows[id], s); }
      if w.faulty(id) { return Some(DatabaseError); }
      if !Unchanged(rows, id, seen, s) { return Some(ConcurrentChange); }
      ghost var before := rows[id];
      rows := rows[id := Embedded(rows[id], s, embedding, w.clock(id))];
      writes := writes + [Write(id, seen, before, rows[id])];
      return None;
    }

    /** A row of a batch: with the batch's vector, or one requested for it alone. */
    method ProcessRow(row: (Id, Row), s: Scope, w: World, tally: Tally) returns (r: Tally)
      modifies this`rows, this`tick, this`writes
      ensures old(writes) <= writes && AllGuarded(writes[|old(writes)|..], [row], s, w)
      ensures |writes| - |old(writes)| == |r.succeeded| - |tally.succeeded|
      ensures CountsOnce(tally, r, row)
      ensures w.answer(row.0).NoVector? ==>
        rows == old(rows) && tick == old(tick) && r == Tallied(tally, row, Some(w.answer(row.0).category))
      ensures w.answer(row.0).Vector? ==>
        var t := w.interfere(old(tick), old(rows)); var failure := WriteFailure(t, row, s, w);
        && tick == old(tick) + 1 && r == Tallied(tally, row, failure)
        && (failure.Some? ==> rows == t)
        && (failure.None? ==>
              rows == t[row.0 := Embedded(t[row.0], s, w.answer(row.0).embedding, w.clock(row.0))])
      ensures r.selected == tally.selected
      ensures Accounted(tally, r, multiset{row.1.namespace})
      ensures Quiet(w) && Unchanged(old(rows), row.0, row.1, s) ==>
        && r.errors == tally.errors && r.failed == tally.failed
        && rows == old(rows)[row.0 := Embedded(old(rows)[row.0], s, w.answer(row.0).embedding, w.clock(row.0))]
    {
      var failure: Option<Category>;
      match w.answer(row.0) {
        case NoVector(category) => failure := Some(category);
        case Vector(embedding) => failure := WriteOne(row.0, row.1, embedding, s, w);
      }
      r := Tallied(tally, row, failure);
    }

    method ProcessBatch(
        batch: seq<(Id, Row)>, s: Scope, w: World, tally: Tally, ghost start: Table, ghost done: set<Id>)
      returns (r: Tally)
      modifies this`rows, this`tick, this`writes
      ensures old(writes) <= writes && AllGuarded(writes[|old(writes)|..], batch, s, w)
      ensures |writes| - |old(writes)| == |r.succeeded| - |tally.succeeded|
      ensures r.selected == tally.selected
      ensures Accounted(tally, r, Namespaces(batch))
      ensures Foreseen(old(rows), s, w, batch, start, done) ==>
        && r.errors == tally.errors && r.failed == tally.failed
        && rows == Reembedded(start, s, w, done + IdsOf(batch))
    {
      assert Namespaces(batch[..0]) == multiset{} && Accounted(tally, tally, multiset{});
      hide AllGuarded, CountsOnce;
      NoWrites(writes, batch, s, w);
      hide Accounted, Reembedded, Ahead, Unchanged, Foreseen, Quiet, IdsOf, Namespaces, Embedded, Tallied, WriteFailure;
      r := tally;
      ForeseenRow(rows, s, w, batch, start, done, 0);
      for i := 0 to |batch|
        invariant old(writes) <= writes && AllGuarded(writes[|old(writes)|..], batch, s, w)
        invariant |writes| - |old(writes)| == |r.succeeded| - |tally.succeeded|
        invariant r.selected == tally.selected
        invariant Accounted(tally, r, Namespaces(batch[..i]))
        invariant Foreseen(old(rows), s, w, batch, start, done) ==>
          && r.errors == tally.errors && r.failed == tally.failed
          && rows == Reembedded(start, s, w, done + IdsOf(batch[..i]))
      {
        ForeseenRow(old(rows), s, w, batch, start, done, i);
        ghost var soFar, written := r, writes;
        r := ProcessRow(batch[i], s, w, r);
        MoreWrites(old(writes), written, writes, batch, i, s, w);
        NamespacesSnoc(batch, i);
        AccountedMore(tally, soFar, r, Namespaces(batch[..i]), multiset{batch[i].1.namespace});
      }
      assert batch[..|batch|] == batch;
    }

    /** One batch: None when nothing more is selectable. */
    method Pass(
        s: Scope, o: Options, w: World, tally: Tally, lastId: Option<Id>, ghost start: Table, ghost chosen: seq<Id>)
      returns (r: Tally, next: Option<Id>, ghost ids: seq<Id>)
      requires o.batchSize >= 1 && UpToCursor(chosen, lastId) && Consistent(tally, chosen, o.dryRun)
      modifies this
      ensures old(writes) <= writes
      ensures var q := Selection(w.interfere(old(tick), old(rows)), lastId, o.batchSize, w.held(old(tick)));
        && selections == old(selections) + [q] && ids == IdsSelected(q, s)
        && AllSelected(writes[|old(writes)|..], [q], s, w)
        && r.selected == tally.selected + NamespacesSelected(q, s)
      ensures next == if |ids| == 0 then None else Some(ids[|ids| - 1])
      ensures next.None? ==> r == tally
      ensures next.Some? ==> UpToCursor(chosen + ids, next) && Remaining(next) < Remaining(lastId)
      ensures Consistent(r, chosen + ids, o.dryRun)
      ensures QuietSoFar(start, old(rows), s, w, o.dryRun, tally, chosen, lastId) ==>
        if next.Some? then QuietSoFar(start, rows, s, w, o.dryRun, r, chosen + ids, next)
        else QuietSoFar(start, rows, s, w, o.dryRun, r, chosen + ids, lastId) && Selectable(rows, s, lastId) == {}
    {
      hide Swept, Quiet, Reembedded, BatchIds, Foreseen, Ahead, Selectable, Namespaces, UpToCursor, IdsOf;
      hide AllGuarded, AllSelected, IsBatch;
      ghost var n, before := tick, rows;
      var batch := SelectBatch(s, lastId, o.batchSize, w);
      ghost var q := Selection(rows, lastId, o.batchSize, w.held(n));
      NoSelected(writes, q, s, w);
      ids := BatchIds(rows, s, lastId, o.batchSize, w.held(n));
      QuietBatch(start, before, rows, s, w, o.dryRun, tally, chosen, lastId, o.batchSize, n);
      if |batch| == 0 {
        assert chosen + ids == chosen;
        EmptyBatch(Selection(rows, lastId, o.batchSize, w.held(n)), s);
        return tally, None, ids;
      }
      CursorAdvances(rows, s, chosen, lastId, o.batchSize, w.held(n));
      NamespacesSize(batch);
      next := Some(batch[|batch| - 1].0);
      r := tally.(selected := tally.selected + Namespaces(batch));
      ghost var loaded := rows;
      if !o.dryRun {
        r := ProcessBatch(batch, s, w, r, start, Elements(chosen));
        GuardedIsSelected(writes[|old(writes)|..], batch, q, s, w);
      }
      if QuietSoFar(start, before, s, w, o.dryRun, tally, chosen, lastId) {
        SweptFurther(start, loaded, rows, s, w, o.dryRun, Elements(chosen), lastId, o.batchSize);
      }
    }

    /** A pass, seen from the whole scan. */
    method NextPass(
        s: Scope, o: Options, w: World, tally: Tally, lastId: Option<Id>, ghost start: Table, ghost chosen: seq<Id>,
        ghost qs: seq<Selection>)
      returns (r: Tally, next: Option<Id>, ghost now: seq<Id>, ghost q: Selection)
      requires o.batchSize >= 1 && Scanned(start, rows, s, w, o, tally, chosen, lastId, qs)
      modifies this
      ensures selections == old(selections) + [q]
      ensures old(writes) <= writes && AllSelected(writes[|old(writes)|..], [q], s, w)
      ensures next.Some? ==> Remaining(next) < Remaining(lastId)
      ensures next.Some? ==> Scanned(start, rows, s, w, o, r, now, next, qs + [q])
      ensures next.None? ==> Ended(start, rows, s, w, o, r, now, lastId, qs + [q]) && r == tally
    {
      hide UpToCursor, Consistent, QuietSoFar, Selectable, IdsSelected, NamespacesSelected, Traced, Quiet;
      hide AllSelected;
      q := Selection(w.interfere(tick, rows), lastId, o.batchSize, w.held(tick));
      TracedSnoc(qs, s, chosen, tally.selected, lastId, q);
      ghost var ids;
      r, next, ids := Pass(s, o, w, tally, lastId, start, chosen);
      now := chosen + ids;
      assert |ids| == 0 ==> now == chosen;
      QuietIsSoFar(start, rows, s, w, o, r, now, if next.None? then lastId else next);
    }

    /** The loop: until nothing more is selectable, or the errors exceed the limit. */
    method Scan(s: Scope, o: Options, w: World)
      returns (tally: Tally, exceeded: bool, ghost chosen: seq<Id>, ghost qs: seq<Selection>, ghost cursor: Option<Id>)
      requires ValidOptions(s, o)
      modifies this
      ensures selections == old(selections) + qs && |qs| > 0
      ensures old(writes) <= writes && AllSelected(writes[|old(writes)|..], qs, s, w)
      ensures exceeded <==> o.maxErrors.Some? && HardErrors(tally.errors) > o.maxErrors.value
      ensures exceeded ==> Scanned(old(rows), rows, s, w, o, tally, chosen, cursor, qs)
      ensures !exceeded ==> Ended(old(rows), rows, s, w, o, tally, chosen, cursor, qs)
    {
      hide Scanned, Ended, HardErrors, AllSelected;
      NothingWritten(writes, s, w);
      tally, exceeded, chosen, qs := Tally(multiset{}, multiset{}, multiset{}, []), false, [], [];
      var lastId: Option<Id> := None;
      ScanStarts(rows, s, w, o);
      while true
        invariant old(writes) <= writes && AllSelected(writes[|old(writes)|..], qs, s, w)
        invariant selections == old(selections) + qs && Scanned(old(rows), rows, s, w, o, tally, chosen, lastId, qs)
        invariant o.maxErrors.Some? ==> HardErrors(tally.errors) <= o.maxErrors.value
        decreases Remaining(lastId)
      {
        ScannedRemaining(old(rows), rows, s, w, o, tally, chosen, lastId, qs);
        var next: Option<Id>;
        ghost var q, written;
        written := writes;
        tally, next, chosen, q := NextPass(s, o, w, tally, lastId, old(rows), chosen, qs);
        MoreSelected(old(writes), written, writes, qs, q, s, w);
        qs, cursor := qs + [q], if next.None? then lastId else next;
        if next.None? { return; }
        lastId := next;
        exceeded := o.maxErrors.Some? && HardErrors(tally.errors) > o.maxErrors.value;
        if exceeded { return; }
      }
    }

    /** reembedWithClient; `chosen` are the ids its selections returned, in that order.  Each is selected
        once; a run that writes accounts for each exactly once, within the error limit; and if nobody
        interferes and nothing fails it re-embeds exactly what was eligible. */
    method Reembed(s: Scope, o: Options, w: World)
      returns (result: Result, ghost chosen: seq<Id>, ghost counted: Tally)
      modifies this
      ensures result.InvalidOptions? <==>
        o.batchSize < 1 || s.profile.dimensions < 1 || (o.maxErrors != None && o.maxErrors.value < 0)
      ensures result.InvalidOptions? ==> writes == old(writes)
      ensures result.TooManyErrors? ==> o.maxErrors != None && Hard(counted.errors) > o.maxErrors.value
      ensures result.Summary? ==>
        counted == result.tally && (o.maxErrors == None || Hard(counted.errors) <= o.maxErrors.value)
      ensures result.Summary? ==> result.verification == Outdated(rows, s)
      ensures old(writes) <= writes && old(selections) <= selections
              && AllSelected(writes[|old(writes)|..], selections[|old(selections)|..], s, w)
      ensures Quiet(w) && result.Summary? ==>
        && (forall id :: id in chosen <==> id in old(rows) && Due(old(rows)[id], s))
        && rows.Keys == old(rows).Keys && (forall id :: id in rows ==>
              && w.answer(id).Vector?
              && rows[id] ==
                   (var r := old(rows)[id];
                    if o.dryRun || !Due(r, s) then r
                    else Row(r.namespace, r.content, w.clock(id), r.revision, r.live, Some(w.answer(id).embedding),
                             Some(s.profile.provider), Some(s.profile.model), Some(s.profile.dimensions))))
      ensures result.InvalidOptions? <==> !ValidOptions(s, o)
      ensures result.InvalidOptions? ==> rows == old(rows) && selections == old(selections)
      ensures SortedBy(IdLess, chosen)
      ensures old(selections) <= selections && chosen == AllIds(selections[|old(selections)|..], s)
      ensures result.Summary? ==>
        && old(selections) < selections
        && Traced(selections[|old(selections)|..], s, chosen, result.tally.selected, None)
        && result.selected == |chosen| == |result.tally.selected| && result.verification == VerifyCounts(rows, s)
      ensures result.Summary? && !o.dryRun ==> Balanced(result.tally)
      ensures result.Summary? && o.maxErrors.Some? ==> HardErrors(result.tally.errors) <= o.maxErrors.value
      ensures result.Summary? && o.dryRun ==> result.tally == Tally(result.tally.selected, multiset{}, multiset{}, [])
      ensures Quiet(w) && ValidOptions(s, o) ==> result.Summary? && Elements(chosen) == Selectable(old(rows), s, None)
      ensures Quiet(w) && result.Summary? && o.dryRun ==> rows == old(rows)
      ensures Quiet(w) && result.Summary? && !o.dryRun ==>
        && rows == Reembedded(old(rows), s, w, Selectable(old(rows), s, None))
        && result.tally.failed == multiset{} && result.verification == (0, 0)
    {
      chosen := [];
      if !ValidOptions(s, o) { return InvalidOptions, [], Tally(multiset{}, multiset{}, multiset{}, []); }
      ghost var qs, cursor;
      var tally: Tally, exceeded: bool;
      tally, exceeded, chosen, qs, cursor := Scan(s, o, w);
      assert selections[|old(selections)|..] == qs;
      ScanMeans(old(rows), rows, s, w, o, tally, chosen, cursor, qs);
      counted := tally;
      HardIs(tally.errors);
      OutdatedIs(rows, s);
      if Quiet(w) { QuietRows(old(rows), rows, s, w, o.dryRun, chosen); }
      hide Scanned, Ended, Quiet, Reembedded, Selectable, VerifyCounts, IsScan, CursorAfter, AllNamespaces, HardErrors;
      hide Hard, AllSelected, Outdated, Due;
      result := if exceeded then TooManyErrors else Summary(|tally.selected|, tally, VerifyCounts(rows, s));
    }
  }

  lemma QuietRows(start: Table, rows: Table, s: Scope, w: World, dryRun: bool, chosen: seq<Id>)
    requires Quiet(w) && Elements(chosen) == Selectable(start, s, None)
    requires rows == if dryRun then start else Reembedded(start, s, w, Selectable(start, s, None))
    ensures forall id :: id in chosen <==> id in start && Due(start[id], s)
    ensures rows.Keys == start.Keys && forall id :: id in rows ==>
      && w.answer(id).Vector?
      && rows[id] ==
           (var r := start[id];
            if dryRun || !Due(r, s) then r
            else Row(r.namespace, r.content, w.clock(id), r.revision, r.live, Some(w.answer(id).embedding),
                     Some(s.profile.provider), Some(s.profile.model), Some(s.profile.dimensions)))
  {
    forall id ensures id in Selectable(start, s, None) <==> id in start && Due(start[id], s)
              ensures id in chosen <==> id in Elements(chosen) {
      if id in start { DueIff(start[id], s); }
    }
    hide Selectable, Due;
  }

  /** Where a scan stands after some selections. */
  ghost predicate Scanned(
      start: Table, rows: Table, s: Scope, w: World, o: Options, c: Tally, chosen: seq<Id>, cursor: Option<Id>,
      qs: seq<Selection>)
  {
    && Traced(qs, s, chosen, c.selected, cursor) && UpToCursor(chosen, cursor) && Consistent(c, chosen, o.dryRun)
    && (Quiet(w) ==> QuietSoFar(start, rows, s, w, o.dryRun, c, chosen, cursor))
  }

  /** Its last selection was empty. */
  ghost predicate Ended(
      start: Table, rows: Table, s: Scope, w: World, o: Options, c: Tally, chosen: seq<Id>, cursor: Option<Id>,
      qs: seq<Selection>)
  {
    && Traced(qs, s, chosen, c.selected, None) && UpToCursor(chosen, cursor) && Consistent(c, chosen, o.dryRun)
    && (Quiet(w) ==> QuietSoFar(start, rows, s, w, o.dryRun, c, chosen, cursor) && Selectable(rows, s, cursor) == {})
  }

  lemma ScanStarts(start: Table, s: Scope, w: World, o: Options)
    requires ValidOptions(s, o)
    ensures var c := Tally(multiset{}, multiset{}, multiset{}, []);
      && Scanned(start, start, s, w, o, c, [], None, [])
      && (o.maxErrors.Some? ==> HardErrors(c.errors) <= o.maxErrors.value)
  {
    SweepStarts(start, s, w, o.dryRun);
  }

  lemma ScannedRemaining(
      start: Table, rows: Table, s: Scope, w: World, o: Options, c: Tally, chosen: seq<Id>, cursor: Option<Id>,
      qs: seq<Selection>)
    requires Scanned(start, rows, s, w, o, c, chosen, cursor, qs)
    ensures Remaining(cursor) >= 0
  {
  }

  lemma QuietIsSoFar(
      start: Table, rows: Table, s: Scope, w: World, o: Options, c: Tally, chosen: seq<Id>, after: Option<Id>)
    ensures QuietSoFar(start, rows, s, w, o.dryRun, c, chosen, after) ==> Quiet(w)
  {
  }

  /** What a finished scan amounts to. */
  lemma ScanMeans(
      start: Table, rows: Table, s: Scope, w: World, o: Options, c: Tally, chosen: seq<Id>, cursor: Option<Id>,
      qs: seq<Selection>)
    requires ValidOptions(s, o)
    requires if o.maxErrors.Some? && HardErrors(c.errors) > o.maxErrors.value
      then Scanned(start, rows, s, w, o, c, chosen, cursor, qs)
      else Ended(start, rows, s, w, o, c, chosen, cursor, qs)
    ensures SortedBy(IdLess, chosen) && chosen == AllIds(qs, s) && Consistent(c, chosen, o.dryRun)
    ensures (o.maxErrors.Some? ==> HardErrors(c.errors) <= o.maxErrors.value) ==>
      Traced(qs, s, chosen, c.selected, None)
    ensures Quiet(w) ==>
      && (o.maxErrors.Some? ==> HardErrors(c.errors) <= o.maxErrors.value) && c.failed == multiset{}
      && Elements(chosen) == Selectable(start, s, None) && (o.dryRun ==> rows == start)
      && (!o.dryRun ==> rows == Reembedded(start, s, w, Selectable(start, s, None)) && VerifyCounts(rows, s) == (0, 0))
  {
    if Quiet(w) {
      assert QuietSoFar(start, rows, s, w, o.dryRun, c, chosen, cursor) && HardErrors(c.errors) == 0;
      hide Quiet, Reembedded, Selectable, Swept;
      SweptToTheEnd(start, rows, s, w, o.dryRun, Elements(chosen), cursor);
    }
    hide Quiet, Reembedded, Selectable, Swept;
  }

  lemma EmptyBatch(q: Selection, s: Scope)
    ensures |IdsSelected(q, s)| == 0 ==> NamespacesSelected(q, s) == multiset{}
  {
  }

  /** The counts agree with what was selected. */
  predicate Consistent(c: Tally, chosen: seq<Id>, dryRun: bool) {
    |chosen| == |c.selected| && if dryRun then c == Tally(c.selected, multiset{}, multiset{}, []) else Balanced(c)
  }

  ghost predicate QuietSoFar(
      start: Table, rows: Table, s: Scope, w: World, dryRun: bool, c: Tally, chosen: seq<Id>, after: Option<Id>) {
    Quiet(w) && Swept(start, rows, s, w, dryRun, Elements(chosen), after) && c.errors == [] && c.failed == multiset{}
  }

  lemma QuietBatch(
      start: Table, before: Table, rows: Table, s: Scope, w: World, dryRun: bool, c: Tally, chosen: seq<Id>,
      after: Option<Id>, size: nat, n: nat)
    requires rows == w.interfere(n, before) && size > 0
    ensures QuietSoFar(start, before, s, w, dryRun, c, chosen, after) ==>
      && rows == before && w.held(n) == {}
      && (|BatchIds(rows, s, after, size, {})| == 0 ==> Selectable(rows, s, after) == {})
      && (!dryRun ==> Foreseen(rows, s, w, RowsOf(rows, BatchIds(rows, s, after, size, {})), start, Elements(chosen)))
      && (dryRun ==> rows == Reembedded(start, s, w, {}))
  {
    if QuietSoFar(start, before, s, w, dryRun, c, chosen, after) && !dryRun {
      BatchIsForeseen(start, before, s, w, Elements(chosen), after, size);
    }
  }

  lemma SweepStarts(start: Table, s: Scope, w: World, dryRun: bool)
    ensures Quiet(w) ==> Swept(start, start, s, w, dryRun, {}, None)
    ensures Quiet(w) ==> Swept(start, start, s, w, dryRun, Elements([]), None)
    ensures UpToCursor([], None)
  {
  }

  lemma BatchIsForeseen(start: Table, rows: Table, s: Scope, w: World, chosen: set<Id>, after: Option<Id>, size: nat)
    requires Quiet(w) && Swept(start, rows, s, w, false, chosen, after)
    ensures Foreseen(rows, s, w, RowsOf(rows, BatchIds(rows, s, after, size, {})), start, chosen)
  {
    BatchIsAhead(start, rows, s, w, chosen, after, size, {});
  }

  lemma NamespacesSnoc(rows: seq<(Id, Row)>, n: nat)
    requires n < |rows|
    ensures Namespaces(rows[..n + 1]) == Namespaces(rows[..n]) + multiset{rows[n].1.namespace}
  {
    assert rows[..n + 1][..n] == rows[..n];
  }

  lemma {:induction false} NamespacesSize(rows: seq<(Id, Row)>)
    ensures |Namespaces(rows)| == |rows|
  {
    if |rows| > 0 { NamespacesSize(rows[..|rows| - 1]); }
  }

  /** The ids selected so far ascend up to the cursor. */
  ghost predicate UpToCursor(chosen: seq<Id>, after: Option<Id>) {
    && SortedBy(IdLess, chosen) && (forall id :: id in chosen ==> after.Some? && id <= after.value)
    && (after.Some? ==> after.value < UUIDS)
  }

  lemma CursorAdvances(t: Table, s: Scope, chosen: seq<Id>, after: Option<Id>, size: nat, held: set<Id>)
    requires UpToCursor(chosen, after) && |BatchIds(t, s, after, size, held)| > 0
    ensures var b := BatchIds(t, s, after, size, held);
      && UpToCursor(chosen + b, Some(b[|b| - 1])) && Remaining(Some(b[|b| - 1])) < Remaining(after)
      && IdsOf(RowsOf(t, b)) == Elements(b) && Elements(chosen + b) == Elements(chosen) + Elements(b)
  {
    var b := BatchIds(t, s, after, size, held);
    assert b[|b| - 1] in b;
    forall id | id in b ensures (after.Some? ==> id > after.value) && id < UUIDS && id <= b[|b| - 1] {
      AheadOfCursor(t, s, after, id);
      var i :| 0 <= i < |b| && b[i] == id;
    }
    var q := chosen + b;
    forall i, j | 0 <= i < j < |q| ensures IdLess(q[i], q[j]) {
      if i < |chosen| <= j { assert q[i] in chosen && q[j] in b; }
    }
    forall id | id in Elements(b) ensures id in IdsOf(RowsOf(t, b)) {
      var i :| 0 <= i < |b| && b[i] == id;
      assert RowsOf(t, b)[i].0 == id;
    }
  }

  /** A batch of a quiet scan is ahead of everything done. */
  lemma BatchIsAhead(
      start: Table, rows: Table, s: Scope, w: World, chosen: set<Id>, after: Option<Id>, size: nat, held: set<Id>)
    requires Swept(start, rows, s, w, false, chosen, after)
    ensures Ahead(start, s, chosen, RowsOf(rows, BatchIds(rows, s, after, size, held)))
  {
    var b := BatchIds(rows, s, after, size, held);
    BatchIsDistinct(rows, s, after, size, held);
    forall i | 0 <= i < |b| ensures b[i] in Selectable(start, s, None) && b[i] !in chosen && rows[b[i]] == start[b[i]] {
      hide BatchIds, Reembedded, Selectable, Swept;
      assert b[i] in b;
      AheadIsFresh(start, rows, s, w, chosen, after, b[i]);
    }
    hide BatchIds, Reembedded, Selectable, Swept;
  }

  lemma AheadIsFresh(start: Table, rows: Table, s: Scope, w: World, chosen: set<Id>, after: Option<Id>, id: Id)
    requires Swept(start, rows, s, w, false, chosen, after) && id in Selectable(rows, s, after)
    ensures id in Selectable(start, s, None) && id !in chosen && rows[id] == start[id]
  {
  }

  lemma BatchIsDistinct(t: Table, s: Scope, after: Option<Id>, size: nat, held: set<Id>)
    ensures var b := BatchIds(t, s, after, size, held); forall i, j :: 0 <= i < j < |b| ==> b[i] != b[j]
  {
  }

  function IdsOf(batch: seq<(Id, Row)>): set<Id> {
    set i | 0 <= i < |batch| :: batch[i].0
  }

  /** The rows of the batch are distinct, eligible, as they were at the start, and not yet done. */
  ghost predicate Ahead(start: Table, s: Scope, done: set<Id>, batch: seq<(Id, Row)>) {
    && (forall i :: 0 <= i < |batch| ==>
          batch[i].0 in Selectable(start, s, None) && batch[i].1 == start[batch[i].0] && batch[i].0 !in done)
    && (forall i, j :: 0 <= i < j < |batch| ==> batch[i].0 != batch[j].0)
  }

  /** A quiet batch over rows that are as they were at the start. */
  ghost predicate Foreseen(rows: Table, s: Scope, w: World, batch: seq<(Id, Row)>, start: Table, done: set<Id>) {
    Quiet(w) && rows == Reembedded(start, s, w, done) && Ahead(start, s, done, batch)
  }

  lemma ForeseenRow(rows: Table, s: Scope, w: World, batch: seq<(Id, Row)>, start: Table, done: set<Id>, i: nat)
    requires i <= |batch|
    ensures Foreseen(rows, s, w, batch, start, done) ==>
      && Quiet(w) && (forall id :: w.answer(id).Vector?)
      && (i == 0 ==> rows == Reembedded(start, s, w, done + IdsOf(batch[..0])))
      && (i < |batch| ==>
            var t, id := Reembedded(start, s, w, done + IdsOf(batch[..i])), batch[i].0;
            && Unchanged(t, id, batch[i].1, s)
            && t[id := Embedded(t[id], s, w.answer(id).embedding, w.clock(id))] ==
                 Reembedded(start, s, w, done + IdsOf(batch[..i + 1])))
  {
  }
}
