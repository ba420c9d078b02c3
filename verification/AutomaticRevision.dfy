/** commitAutomaticRevision of src/contradictions.ts, the automatic writer that extends the chains
    of an accepted table under the constraints the finalizer installs. */
module AutomaticRevision {
  import opened Prelude
  import opened MemoryValidity
  import opened VersionChains

  /** The call, the id the INSERT draws, and the clock at each statement; nothing is assumed of the
      order of the readings. */
  datatype Revision = Revision(
    predecessorId: Id, namespace: string, callerNamespaces: set<string>, accessLevel: string, newId: Id,
    startedAt: Instant, lockedAt: Instant, revisionAt: Instant, closedAt: Instant)

  /** null; a constraint violation, which rolls back; or the successor's id. */
  datatype Outcome = NotEligible | Rejected | Revised(id: Id)

  predicate Unexpired(r: Row, now: Instant) {
    r.attributes.expiresAt.None? || r.attributes.expiresAt.value > now
  }

  /** The locking SELECT without its NOT EXISTS. */
  predicate Current(t: Table, q: Revision) {
    q.predecessorId in t &&
    var r := t[q.predecessorId];
    && r.attributes.namespace == q.namespace && q.namespace in q.callerNamespaces
    && r.attributes.accessLevel == "normal" && r.attributes.kind == "semantic"
    && r.attributes.deletedAt.None? && Unexpired(r, q.lockedAt)
    && r.supersededAt.None? && r.validTo.None?
    && r.validFrom.Some? && r.validFrom.value <= q.lockedAt
    && r.attributes.consolidatedInto.None?
  }

  predicate Eligible(t: Table, q: Revision) {
    Current(t, q) && !HasSuccessor(t, q.predecessorId)
  }

  /** CHECKs on the closed row, the primary key and the unique index on supersedes_id. */
  predicate Permitted(t: Table, q: Revision)
    requires Eligible(t, q)
  {
    q.revisionAt > t[q.predecessorId].validFrom.value && q.newId !in t && !HasSuccessor(t, q.predecessorId)
  }

  function Closed(r: Row, at: Instant): Row {
    r.(supersededAt := Some(at), validTo := Some(at))
  }

  function Successor(q: Revision): Row {
    Row(Some(q.startedAt), Some(q.predecessorId), None, Some(q.revisionAt), None,
        Attributes(q.namespace, q.accessLevel, "semantic", None, None, None))
  }

  function Extended(t: Table, q: Revision): Table
    requires q.predecessorId in t
  {
    t[q.predecessorId := Closed(t[q.predecessorId], q.revisionAt)][q.newId := Successor(q)]
  }

  function Commit(t: Table, q: Revision): (r: (Outcome, Table))
    ensures !r.0.Revised? ==> r.1 == t
  {
    if !Eligible(t, q) || !Unexpired(t[q.predecessorId], q.closedAt) then (NotEligible, t)
    else if !Permitted(t, q) then (Rejected, t)
    else (Revised(q.newId), Extended(t, q))
  }

  // ---------------------------------------------------------------- the same in the columns

  /** What makes a row no predecessor for the call: another namespace or scope, no ordinary belief,
      forgotten, expired at either statement, ended, not yet begun, merged away or revised before. */
  ghost predicate Barred(t: Table, q: Revision) {
    || q.predecessorId !in t
    || t[q.predecessorId].attributes.namespace != q.namespace || q.namespace !in q.callerNamespaces
    || t[q.predecessorId].attributes.accessLevel != "normal" || t[q.predecessorId].attributes.kind != "semantic"
    || t[q.predecessorId].attributes.deletedAt != None
    || (exists e :: t[q.predecessorId].attributes.expiresAt == Some(e) && (e <= q.lockedAt || e <= q.closedAt))
    || t[q.predecessorId].supersededAt != None || t[q.predecessorId].validTo != None
    || t[q.predecessorId].validFrom == None || t[q.predecessorId].validFrom.value > q.lockedAt
    || t[q.predecessorId].attributes.consolidatedInto != None
    || exists s :: s in t && t[s].supersedesId == Some(q.predecessorId)
  }

  /** What a revision writes: the two ends of the predecessor, and a row that begins where it ends. */
  ghost predicate Revises(t: Table, u: Table, q: Revision) {
    && q.predecessorId in t && q.newId !in t && u.Keys == t.Keys + {q.newId}
    && (forall id :: id in t && id != q.predecessorId ==> u[id] == t[id])
    && u[q.predecessorId].supersededAt == u[q.predecessorId].validTo == Some(q.revisionAt)
    && u[q.predecessorId].createdAt == t[q.predecessorId].createdAt
    && u[q.predecessorId].supersedesId == t[q.predecessorId].supersedesId
    && u[q.predecessorId].validFrom == t[q.predecessorId].validFrom
    && u[q.predecessorId].attributes == t[q.predecessorId].attributes
    && u[q.newId] == Row(Some(q.startedAt), Some(q.predecessorId), None, Some(q.revisionAt), None,
                         Attributes(q.namespace, q.accessLevel, "semantic", None, None, None))
  }

  class Memories {
    var rows: Table

    constructor (initial: Table)
      ensures rows == initial
    {
      rows := initial;
    }

    /** The transaction: lock, close, insert; the insert may still undo the close. */
    method CommitAutomaticRevision(q: Revision) returns (outcome: Outcome)
      modifies this
      ensures (outcome, rows) == Commit(old(rows), q)
      ensures outcome.NotEligible? <==> Barred(old(rows), q)
      ensures outcome.Rejected? <==>
        !Barred(old(rows), q)
        && (q.newId in old(rows) || q.revisionAt <= old(rows)[q.predecessorId].validFrom.value)
      ensures !outcome.Revised? ==> rows == old(rows)
      ensures outcome.Revised? ==> outcome.id == q.newId && Revises(old(rows), rows, q)
    {
      if !Eligible(rows, q) { return NotEligible; }
      var begun := rows;
      if !Unexpired(rows[q.predecessorId], q.closedAt) { return NotEligible; }
      rows := rows[q.predecessorId := Closed(rows[q.predecessorId], q.revisionAt)];
      if q.revisionAt <= rows[q.predecessorId].validFrom.value || q.newId in rows {
        rows := begun;
        return Rejected;
      }
      rows := rows[q.newId := Successor(q)];
      return Revised(q.newId);
    }
  }

  // ---------------------------------------------------------------- guards

  /** In an accepted table the NOT EXISTS guard never decides, and the unique index never fires:
      a revision is rolled back exactly when the clock has not passed the predecessor's start, or
      the drawn id is taken. */
  lemma RejectedIff(t: Table, q: Revision)
    requires Accepted(t)
    ensures Eligible(t, q) <==> Current(t, q)
    ensures Commit(t, q).0.Rejected? <==>
      Current(t, q) && Unexpired(t[q.predecessorId], q.closedAt)
      && (q.revisionAt <= t[q.predecessorId].validFrom.value || q.newId in t)
  {
  }

  // ---------------------------------------------------------------- one revision

  lemma CommitKeepsAccepted(t: Table, q: Revision)
    requires Accepted(t)
    ensures Accepted(Commit(t, q).1)
  {
  }

  /** From the revision instant on, the successor is believed in the predecessor's place; nothing
      else, and no earlier instant, changes. */
  lemma RevisionHandsOver(t: Table, q: Revision, id: Id, at: Instant)
    requires Accepted(t) && Commit(t, q).0.Revised?
    ensures ValidAt(Commit(t, q).1, id, at) <==>
      if at < q.revisionAt then ValidAt(t, id, at)
      else id == q.newId || (id != q.predecessorId && ValidAt(t, id, at))
    ensures q.revisionAt <= at ==> (ValidAt(t, q.predecessorId, at) && !ValidAt(t, q.newId, at))
  {
  }

  /** The revision appends one version to one chain and leaves every other history as it was. */
  lemma {:induction false} RevisionAppends(t: Table, q: Revision, id: Id)
    requires Accepted(t) && Commit(t, q).0.Revised? && id in t
    ensures Accepted(Commit(t, q).1)
    ensures History(Commit(t, q).1, id) == History(t, id)
    ensures History(Commit(t, q).1, q.newId) == History(t, q.predecessorId) + [q.newId]
  {
    var u := Commit(t, q).1;
    CommitKeepsAccepted(t, q);
    HistoryCarries(t, u, id);
    HistoryCarries(t, u, q.predecessorId);
    HistoryIsUnique(u, History(t, q.predecessorId) + [q.newId], q.newId);
  }

  lemma HistoryCarries(t: Table, u: Table, id: Id)
    requires Accepted(t) && Accepted(u) && id in t
    requires forall x :: x in t ==> x in u && u[x].supersedesId == t[x].supersedesId
    ensures History(u, id) == History(t, id)
  {
    var p := History(t, id);
    forall i | 0 < i < |p| ensures Supersedes(u, p[i], p[i - 1]) {
      assert Supersedes(t, p[i], p[i - 1]);
    }
    HistoryIsUnique(u, p, id);
  }

  // ---------------------------------------------------------------- runs

  /** What writers do to an accepted table: an ordinary insert, an automatic revision, or a rewrite
      of other columns (tombstones, consolidation links, expiry). */
  datatype Step =
    | Insert(id: Id, createdAt: Instant, validFrom: Instant, initial: Attributes)
    | Revise(q: Revision)
    | Rewrite(id: Id, attributes: Attributes)

  function Next(t: Table, s: Step): Table {
    match s
    case Insert(id, createdAt, validFrom, attributes) =>
      if id in t then t else t[id := Row(Some(createdAt), None, None, Some(validFrom), None, attributes)]
    case Revise(q) => Commit(t, q).1
    case Rewrite(id, attributes) => if id in t then t[id := t[id].(attributes := attributes)] else t
  }

  function Run(t: Table, steps: seq<Step>): Table {
    if |steps| == 0 then t else Next(Run(t, steps[..|steps| - 1]), steps[|steps| - 1])
  }

  lemma NextKeepsAccepted(t: Table, s: Step)
    requires Accepted(t)
    ensures Accepted(Next(t, s))
  {
    hide Accepted, Commit;
    match s
    case Insert(id, createdAt, validFrom, initial) =>
      if id !in t { InsertKeepsAccepted(t, id, createdAt, validFrom, initial); }
    case Revise(q) => CommitKeepsAccepted(t, q);
    case Rewrite(id, attributes) => if id in t { RewriteKeepsAccepted(t, id, attributes); }
  }

  lemma InsertKeepsAccepted(t: Table, id: Id, createdAt: Instant, validFrom: Instant, initial: Attributes)
    requires Accepted(t) && id !in t
    ensures Accepted(t[id := Row(Some(createdAt), None, None, Some(validFrom), None, initial)])
  {
  }

  lemma RewriteKeepsAccepted(t: Table, id: Id, attributes: Attributes)
    requires Accepted(t) && id in t
    ensures Accepted(t[id := t[id].(attributes := attributes)])
  {
  }

  /** The acceptance the finalizer established once holds for ever: chains stay disjoint, finite and
      acyclic, and at every instant one version of each is believed. */
  lemma {:induction false} RunKeepsAccepted(t: Table, steps: seq<Step>)
    requires Accepted(t)
    ensures Accepted(Run(t, steps))
  {
    if |steps| > 0 {
      RunKeepsAccepted(t, steps[..|steps| - 1]);
      NextKeepsAccepted(Run(t, steps[..|steps| - 1]), steps[|steps| - 1]);
    }
  }

  /** The step only writes boundaries after that instant. */
  predicate WritesAfter(s: Step, at: Instant) {
    match s
    case Insert(_, _, validFrom, _) => at < validFrom
    case Revise(q) => at < q.revisionAt
    case Rewrite(_, _) => true
  }

  lemma NextKeepsPast(t: Table, s: Step, id: Id, at: Instant)
    requires Accepted(t) && WritesAfter(s, at)
    ensures ValidAt(Next(t, s), id, at) <==> ValidAt(t, id, at)
  {
  }

  /** What was believed at an instant before every boundary a run writes is what is still believed
      of it after the run. */
  lemma {:induction false} RunKeepsPast(t: Table, steps: seq<Step>, id: Id, at: Instant)
    requires Accepted(t) && forall s :: s in steps ==> WritesAfter(s, at)
    ensures ValidAt(Run(t, steps), id, at) <==> ValidAt(t, id, at)
  {
    if |steps| > 0 {
      var before := steps[..|steps| - 1];
      RunKeepsPast(t, before, id, at);
      RunKeepsAccepted(t, before);
      NextKeepsPast(Run(t, before), steps[|steps| - 1], id, at);
    }
  }

  lemma NextKeepsLinks(t: Table, s: Step)
    ensures forall x :: x in t ==> x in Next(t, s) && Next(t, s)[x].supersedesId == t[x].supersedesId
    ensures forall x :: x in t && t[x].validTo.Some? ==> Next(t, s)[x].validTo == t[x].validTo
  {
  }

  lemma NextKeepsVersion(t: Table, s: Step, id: Id)
    requires Accepted(t) && id in t
    ensures Accepted(Next(t, s)) && id in Next(t, s) && History(Next(t, s), id) == History(t, id)
    ensures t[id].validTo.Some? ==> Next(t, s)[id].validTo == t[id].validTo
  {
    hide Accepted, Next, History;
    NextKeepsAccepted(t, s);
    NextKeepsLinks(t, s);
    HistoryCarries(t, Next(t, s), id);
  }

  /** A version once closed keeps its end, and its place in the chain, for the rest of the run. */
  lemma {:induction false} RunKeepsVersions(t: Table, steps: seq<Step>, id: Id)
    requires Accepted(t) && id in t
    ensures Accepted(Run(t, steps)) && id in Run(t, steps)
    ensures History(Run(t, steps), id) == History(t, id)
    ensures t[id].validTo.Some? ==> Run(t, steps)[id].validTo == t[id].validTo
  {
    hide Accepted, Next, History;
    if |steps| > 0 {
      var before := steps[..|steps| - 1];
      RunKeepsVersions(t, before, id);
      NextKeepsVersion(Run(t, before), steps[|steps| - 1], id);
    }
  }
}
