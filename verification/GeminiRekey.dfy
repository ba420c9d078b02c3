/** scripts/repair-gemini-source-keys.ts: positional source keys are replaced in place by
    content-derived ones under UNIQUE (client_id, source_key).  SHA-256 is modelled as an
    injection: a content key is what it digests, a fingerprint the state it digests. */
module GeminiRekey {
  import opened Prelude

  const CLIENT_ID := "preseed-gemini"
  const SOURCE := "gemini-conversation"

  /** What iso() keeps of a timestamptz. */
  type Millis = int

  type Digits = s: string | |s| > 0 && forall i :: 0 <= i < |s| ==> '0' <= s[i] <= '9' witness "0"

  /** gemini-conv:<digits>:<suffix>, gemini-conv:v2:<digest>, or any other text. */
  datatype Key =
    | Positional(digits: Digits, suffix: string)
    | ContentKey(content: string, createdAt: Millis)
    | OtherKey(text: string)

  /** What equivalentPayload compares; `rest` stands for the remaining columns. */
  datatype Payload = Payload(
      content: string, createdAt: Millis, source: string, clientId: string, namespace: string, rest: nat)

  datatype Row = Row(key: Option<Key>, payload: Payload, updatedAt: Option<Millis>, deleted: bool)

  type Table = map<Id, Row>

  predicate SameKey(a: Row, b: Row) {
    a.key.Some? && a.key == b.key && a.payload.clientId == b.payload.clientId
  }

  /** The unique constraint; it also covers soft-deleted rows and rows of other sources. */
  predicate Unique(t: Table) {
    forall a, b :: a in t && b in t && SameKey(t[a], t[b]) ==> a == b
  }

  // ---------------------------------------------------------------- preview

  predicate InSource(r: Row) {
    r.payload.clientId == CLIENT_ID && r.payload.source == SOURCE && !r.deleted
  }

  /** `.+` to the end of the text: not empty and without a line terminator. */
  predicate IsSuffix(s: string) {
    |s| > 0 && forall i :: 0 <= i < |s| ==> s[i] !in "\n\r\U{2028}\U{2029}"
  }

  /** The scope of the SELECT; the script's own pattern also wants a suffix. */
  predicate Selected(r: Row) {
    InSource(r) && r.key.Some? && r.key.value.Positional?
  }

  predicate IsLegacy(r: Row) {
    Selected(r) && IsSuffix(r.key.value.suffix)
  }

  function Target(r: Row): Key {
    ContentKey(r.payload.content, r.payload.createdAt)
  }

  predicate IsTargeted(t: Table, k: Key) {
    exists id :: id in t && Selected(t[id]) && Target(t[id]) == k
  }

  /** loadRows: the selected rows and the rows of the source that hold one of their targets. */
  function Loaded(t: Table): set<Id> {
    set id | id in t && InSource(t[id]) && t[id].key.Some? &&
      (t[id].key.value.Positional? || IsTargeted(t, t[id].key.value))
  }

  function Candidates(t: Table): set<Id> {
    set id | id in t && IsLegacy(t[id])
  }

  function TargetKeys(t: Table): set<Key> {
    set id | id in Candidates(t) :: Target(t[id])
  }

  /** The candidates for a key, with the row that holds it already. */
  function Group(t: Table, k: Key): set<Id> {
    if k !in TargetKeys(t) then {}
    else set id | id in Loaded(t) && if IsLegacy(t[id]) then Target(t[id]) == k else t[id].key == Some(k)
  }

  predicate Collides(t: Table, k: Key) {
    |Group(t, k)| > 1
  }

  predicate Equivalent(t: Table, k: Key) {
    forall a, b :: a in Group(t, k) && b in Group(t, k) ==> t[a].payload == t[b].payload
  }

  function AuditTime(r: Row): Millis {
    Coalesce(r.updatedAt, r.payload.createdAt)
  }

  predicate NoLater(t: Table, a: Id, b: Id) {
    a in t && b in t && (AuditTime(t[a]) < AuditTime(t[b]) || (AuditTime(t[a]) == AuditTime(t[b]) && a <= b))
  }

  predicate IsOldest(t: Table, group: set<Id>, id: Id) {
    id in group && forall other :: other in group ==> NoLater(t, id, other)
  }

  lemma {:induction false} OldestExists(t: Table, group: set<Id>)
    requires group != {} && group <= t.Keys
    ensures exists id :: IsOldest(t, group, id)
  {
    var x :| x in group;
    if group == {x} {
      assert IsOldest(t, group, x);
    } else {
      OldestExists(t, group - {x});
      var y :| IsOldest(t, group - {x}, y);
      var least := if NoLater(t, x, y) then x else y;
      forall other | other in group ensures NoLater(t, least, other) {
        assert other != x ==> NoLater(t, y, other);
      }
      assert IsOldest(t, group, least);
    }
  }

  // ---------------------------------------------------------------- manifest

  datatype Fingerprint = Fingerprint(id: Id, key: Option<Key>, payload: Payload, updatedAt: Option<Millis>)

  datatype Action = Rekey | Retain | Delete | Leave

  datatype Approval = Approval(expected: Fingerprint, target: Key, action: Action, retainId: Option<Id>)

  datatype Manifest = Manifest(version: int, backupVerified: bool, approvals: map<Id, Approval>)

  function FingerprintOf(id: Id, r: Row): Fingerprint {
    Fingerprint(id, r.key, r.payload, r.updatedAt)
  }

  predicate Approved(t: Table, id: Id, a: Approval)
    requires id in t
  {
    a.expected == FingerprintOf(id, t[id]) &&
      Some(a.target) == (if IsLegacy(t[id]) then Some(Target(t[id])) else t[id].key)
  }

  /** An equivalent group keeps exactly its oldest row; any other group is left alone. */
  predicate Resolved(t: Table, k: Key, approvals: map<Id, Approval>) {
    forall id :: id in Group(t, k) ==> id in approvals && Handled(t, k, id, approvals[id])
  }

  predicate Handled(t: Table, k: Key, id: Id, a: Approval) {
    if Equivalent(t, k)
    then a.action == (if IsOldest(t, Group(t, k), id) then Retain else Delete)
         && a.retainId.Some? && IsOldest(t, Group(t, k), a.retainId.value)
    else a.action == Leave
  }

  predicate ManifestHolds(t: Table, m: Manifest) {
    && m.version == 1 && m.backupVerified
    && (forall id :: id in Candidates(t) ==> id in m.approvals)
    && (forall id :: id in m.approvals ==>
          id in Loaded(t) && Approved(t, id, m.approvals[id])
          && (id in Candidates(t) || exists k :: k in TargetKeys(t) && Collides(t, k) && id in Group(t, k)))
    && (forall k :: k in TargetKeys(t) && Collides(t, k) ==> Resolved(t, k, m.approvals))
  }

  // ---------------------------------------------------------------- what a repair amounts to

  /** Candidates of a non-equivalent collision. */
  predicate Uncertain(t: Table, k: Key) {
    Collides(t, k) && !Equivalent(t, k)
  }

  predicate IsDuplicate(t: Table, id: Id, k: Key) {
    k in TargetKeys(t) && Collides(t, k) && Equivalent(t, k) && id in Group(t, k) && !IsOldest(t, Group(t, k), id)
  }

  function Duplicates(t: Table): set<Id> {
    set id, k | k in TargetKeys(t) && id in Group(t, k) && IsDuplicate(t, id, k) :: id
  }

  function Movers(t: Table): set<Id> {
    set id | id in Candidates(t) && id !in Duplicates(t) && !Uncertain(t, Target(t[id]))
  }

  /** Part of the repair: those rows deleted, those moved to their target key. */
  function Partly(t: Table, deleted: set<Id>, moved: set<Id>): Table {
    map id | id in t && id !in deleted :: if id in moved then t[id].(key := Some(Target(t[id]))) else t[id]
  }

  function Repaired(t: Table): Table {
    Partly(t, Duplicates(t), Movers(t))
  }

  /** Some row the script does not load holds the key: a soft-deleted row or one of another source. */
  predicate HeldOutside(t: Table, k: Key) {
    exists id :: id in t && t[id].payload.clientId == CLIENT_ID && !InSource(t[id]) && t[id].key == Some(k)
  }

  // ---------------------------------------------------------------- groups

  lemma CandidateInGroup(t: Table, id: Id)
    requires id in Candidates(t)
    ensures Target(t[id]) in TargetKeys(t) && id in Group(t, Target(t[id]))
  {
  }

  /** A live row of the source that holds a candidate's target is in the candidate's group. */
  lemma HolderInGroup(t: Table, holder: Id, k: Key)
    requires k in TargetKeys(t) && k.ContentKey? && holder in t && InSource(t[holder]) && t[holder].key == Some(k)
    ensures holder in Group(t, k)
  {
  }

  /** Once a mover's duplicates are gone, only its own row is left of its group. */
  lemma MoverAlone(t: Table, id: Id, other: Id)
    requires id in Movers(t) && other in Group(t, Target(t[id])) && other !in Duplicates(t)
    ensures other == id
  {
    var k := Target(t[id]);
    CandidateInGroup(t, id);
    if Collides(t, k) {
      assert IsOldest(t, Group(t, k), id) by { assert !IsDuplicate(t, id, k); }
      assert IsOldest(t, Group(t, k), other) by { assert !IsDuplicate(t, other, k); }
    } else {
      assert {id, other} <= Group(t, k);
      SubsetSize({id, other}, Group(t, k));
    }
  }

  /** The rows that share a mover's target with it are deleted before it moves. */
  predicate Cleared(t: Table, deleted: set<Id>, id: Id)
    requires id in t
  {
    forall d :: d in Duplicates(t) && d in Group(t, Target(t[id])) ==> d in deleted
  }

  predicate Conflict(u: Table, id: Id, k: Key)
    requires id in u
  {
    exists other :: other in u && other != id && u[other].key == Some(k) &&
      u[other].payload.clientId == u[id].payload.clientId
  }

  /** At any point of a repair, moving the next row meets a holder of its key exactly when a row the
      script never loaded holds it. */
  lemma ConflictIffHeldOutside(t: Table, deleted: set<Id>, moved: set<Id>, id: Id)
    requires deleted <= Duplicates(t) && moved <= Movers(t)
    requires id in Movers(t) && id !in moved && Cleared(t, deleted, id)
    ensures id in Partly(t, deleted, moved)
    ensures Conflict(Partly(t, deleted, moved), id, Target(t[id])) <==> HeldOutside(t, Target(t[id]))
  {
    var u, k := Partly(t, deleted, moved), Target(t[id]);
    CandidateInGroup(t, id);
    forall other | other in u && other != id && u[other].key == Some(k) && u[other].payload.clientId == CLIENT_ID
      ensures HeldOutside(t, k)
    {
      NoInsideHolder(t, deleted, moved, id, other);
    }
    if HeldOutside(t, k) {
      var other :| other in t && t[other].payload.clientId == CLIENT_ID && !InSource(t[other]) &&
        t[other].key == Some(k);
      OutsideUntouched(t, other);
      assert u[other] == t[other];
    }
  }

  lemma OutsideUntouched(t: Table, id: Id)
    requires id in t && !InSource(t[id])
    ensures id !in Duplicates(t) && id !in Movers(t)
  {
  }

  lemma NoInsideHolder(t: Table, deleted: set<Id>, moved: set<Id>, id: Id, other: Id)
    requires deleted <= Duplicates(t) && moved <= Movers(t)
    requires id in Movers(t) && id !in moved && Cleared(t, deleted, id)
    requires other in Partly(t, deleted, moved) && other != id
    ensures Partly(t, deleted, moved)[other].key == Some(Target(t[id])) && t[other].payload.clientId == CLIENT_ID ==>
      !InSource(t[other]) && t[other].key == Some(Target(t[id]))
  {
    CandidateInGroup(t, id);
    if other in moved && Target(t[other]) == Target(t[id]) {
      CandidateInGroup(t, other);
      MoverAlone(t, id, other);
    } else if InSource(t[other]) && t[other].key == Some(Target(t[id])) {
      HolderInGroup(t, other, Target(t[id]));
      MoverAlone(t, id, other);
    }
  }

  /** Whatever rows are deleted and moved so far, in whatever order, no two rows share a key, provided
      each moved row's duplicates went first and nothing outside held its target. */
  lemma UniqueThroughout(t: Table, deleted: set<Id>, moved: set<Id>)
    requires Unique(t) && deleted <= Duplicates(t) && moved <= Movers(t)
    requires forall id :: id in moved ==> Cleared(t, deleted, id) && !HeldOutside(t, Target(t[id]))
    ensures Unique(Partly(t, deleted, moved))
  {
    var u := Partly(t, deleted, moved);
    forall a, b | a in u && b in u && a in moved && SameKey(u[a], u[b]) ensures a == b {
      if a != b { MovedAlone(t, deleted, moved, a, b); }
    }
    assert forall a, b :: a in u && b in u && a !in moved && b !in moved && SameKey(u[a], u[b]) ==> SameKey(t[a], t[b]);
  }

  /** No row but a moved one has its key. */
  lemma MovedAlone(t: Table, deleted: set<Id>, moved: set<Id>, id: Id, other: Id)
    requires deleted <= Duplicates(t) && moved <= Movers(t) && id in moved && Cleared(t, deleted, id)
    requires !HeldOutside(t, Target(t[id])) && other != id && id in Partly(t, deleted, moved)
    requires other in Partly(t, deleted, moved)
    ensures !SameKey(Partly(t, deleted, moved)[id], Partly(t, deleted, moved)[other])
  {
    if SameKey(Partly(t, deleted, moved)[id], Partly(t, deleted, moved)[other]) {
      assert Partly(t, deleted, moved - {id})[other] == Partly(t, deleted, moved)[other];
      NoInsideHolder(t, deleted, moved - {id}, id, other);
    }
  }

  // ---------------------------------------------------------------- what a repair leaves

  /** No payload is lost, and none is altered: a deleted row's is that of the oldest of its group. */
  lemma RepairKeepsPayloads(t: Table, id: Id)
    requires id in t
    ensures exists kept :: kept in Repaired(t) && Repaired(t)[kept].payload == t[id].payload
    ensures id in Repaired(t) ==> Repaired(t)[id].payload == t[id].payload
  {
    if id in Duplicates(t) {
      var k :| k in TargetKeys(t) && id in Group(t, k) && IsDuplicate(t, id, k);
      OldestExists(t, Group(t, k));
      var oldest :| IsOldest(t, Group(t, k), oldest);
      OldestSurvives(t, k, oldest);
      assert oldest in Repaired(t);
    } else {
      assert id in Repaired(t);
    }
  }

  lemma OldestSurvives(t: Table, k: Key, oldest: Id)
    requires IsOldest(t, Group(t, k), oldest)
    ensures oldest !in Duplicates(t)
  {
  }

  /** Every surviving candidate outside the uncertain groups has its content-derived key; every row
      that is neither a duplicate nor such a candidate is as it was. */
  lemma RepairMovesExactly(t: Table, id: Id)
    requires id in Repaired(t)
    ensures id in t
    ensures id in Candidates(t) && !Uncertain(t, Target(t[id])) ==>
      Repaired(t)[id] == t[id].(key := Some(Target(t[id])))
    ensures id !in Candidates(t) || Uncertain(t, Target(t[id])) ==> Repaired(t)[id] == t[id]
  {
  }

  /** Uncertain groups are not touched at all. */
  lemma UncertainUntouched(t: Table, k: Key, id: Id)
    requires Uncertain(t, k) && id in Group(t, k)
    ensures id in Repaired(t) && Repaired(t)[id] == t[id]
  {
  }

  lemma CandidatesLeft(t: Table, id: Id)
    ensures id in Candidates(Repaired(t)) <==> id in Candidates(t) && Uncertain(t, Target(t[id]))
  {
  }

  lemma GroupLeft(t: Table, k: Key, id: Id)
    requires Uncertain(t, k)
    ensures id in Group(Repaired(t), k) <==> id in Group(t, k)
  {
    hide Group, Uncertain, Repaired;
    if id in Group(t, k) { StaysInGroup(t, k, id); }
    if id in Group(Repaired(t), k) { WasInGroup(t, k, id); }
  }

  lemma StaysInGroup(t: Table, k: Key, id: Id)
    requires Uncertain(t, k) && id in Group(t, k)
    ensures id in Group(Repaired(t), k)
  {
    var u := Repaired(t);
    var c := UncertainCandidate(t, k);
    CandidatesLeft(t, c);
    UncertainUntouched(t, k, c);
    UncertainUntouched(t, k, id);
    hide Repaired, Uncertain;
    assert IsTargeted(u, k) by { assert Selected(u[c]); }
  }

  lemma WasInGroup(t: Table, k: Key, id: Id)
    requires Uncertain(t, k) && id in Group(Repaired(t), k)
    ensures id in Group(t, k)
  {
    var u := Repaired(t);
    CandidatesLeft(t, id);
    if IsLegacy(u[id]) {
      CandidateInGroup(t, id);
    } else if id !in Movers(t) {
      var c := UncertainCandidate(t, k);
      HolderInGroup(t, id, k);
    }
  }

  lemma UncertainCandidate(t: Table, k: Key) returns (c: Id)
    requires Uncertain(t, k)
    ensures c in Candidates(t) && Target(t[c]) == k && c in Group(t, k) && k.ContentKey?
  {
    assert k in TargetKeys(t);
    c :| c in Candidates(t) && Target(t[c]) == k;
    CandidateInGroup(t, c);
  }

  /** A second preview shows exactly the uncertain groups of the first, as they were. */
  lemma SecondPreview(t: Table, k: Key)
    ensures k in TargetKeys(Repaired(t)) <==> Uncertain(t, k)
    ensures Uncertain(t, k) ==> Group(Repaired(t), k) == Group(t, k) && Uncertain(Repaired(t), k)
  {
    hide Repaired, Uncertain, TargetKeys, Group;
    if k in TargetKeys(Repaired(t)) { TargetWasUncertain(t, k); }
    if Uncertain(t, k) {
      UncertainIsTargeted(t, k);
      forall id ensures id in Group(Repaired(t), k) <==> id in Group(t, k) {
        GroupLeft(t, k, id);
      }
      SameGroupUncertain(t, k);
    }
  }

  lemma TargetWasUncertain(t: Table, k: Key)
    requires k in TargetKeys(Repaired(t))
    ensures Uncertain(t, k)
  {
    var c :| c in Candidates(Repaired(t)) && Target(Repaired(t)[c]) == k;
    CandidatesLeft(t, c);
  }

  lemma UncertainIsTargeted(t: Table, k: Key)
    requires Uncertain(t, k)
    ensures k in TargetKeys(Repaired(t))
  {
    var c := UncertainCandidate(t, k);
    CandidatesLeft(t, c);
    UncertainUntouched(t, k, c);
    hide Repaired, Uncertain;
  }

  lemma SameGroupUncertain(t: Table, k: Key)
    requires Uncertain(t, k)
    ensures Group(Repaired(t), k) == Group(t, k) ==> Uncertain(Repaired(t), k)
  {
    hide Repaired, TargetKeys;
    var u := Repaired(t);
    var a, b :| a in Group(t, k) && b in Group(t, k) && t[a].payload != t[b].payload;
    UncertainUntouched(t, k, a);
    UncertainUntouched(t, k, b);
    assert Group(u, k) == Group(t, k) ==> a in Group(u, k) && b in Group(u, k) && u[a].payload != u[b].payload;
  }

  // ---------------------------------------------------------------- apply

  /** The approval is complete and every ordinary candidate is approved for a re-key; nothing
      refers to a row to be deleted; and no target is held outside the loaded rows. */
  predicate Applicable(t: Table, referenced: set<Id>, m: Manifest) {
    && ManifestHolds(t, m)
    && (forall id :: id in Candidates(t) && !Collides(t, Target(t[id])) ==> m.approvals[id].action == Rekey)
    && Duplicates(t) !! referenced
    && (forall id :: id in Movers(t) ==> !HeldOutside(t, Target(t[id])))
  }

  /** What is deleted and moved once the groups of `done` are dealt with. */
  function DeletedIn(t: Table, done: set<Key>): set<Id> {
    set id, k | k in done && id in Group(t, k) && id in Duplicates(t) :: id
  }

  function MovedIn(t: Table, done: set<Key>): set<Id> {
    set id | id in Movers(t) && Target(t[id]) in done
  }

  lemma DuplicatesOfGroup(t: Table, k: Key, oldest: Id)
    requires k in TargetKeys(t) && Collides(t, k) && Equivalent(t, k) && IsOldest(t, Group(t, k), oldest)
    ensures forall id :: id in Group(t, k) ==> (id in Duplicates(t) <==> id != oldest)
  {
  }

  /** No row is deleted from a group that does not collide, or is uncertain. */
  lemma NoDuplicatesOfGroup(t: Table, k: Key, id: Id)
    requires id in Group(t, k) && (!Collides(t, k) || !Equivalent(t, k))
    ensures id !in Duplicates(t)
  {
  }

  lemma DoneWith(t: Table, done: set<Key>, k: Key)
    ensures DeletedIn(t, done + {k}) == DeletedIn(t, done) + Group(t, k) * Duplicates(t)
    ensures MovedIn(t, done + {k}) == MovedIn(t, done) + MovedIn(t, {k})
  {
  }

  lemma MergedGroup(t: Table, done: set<Key>, k: Key, oldest: Id)
    requires k in TargetKeys(t) && Collides(t, k) && Equivalent(t, k) && IsOldest(t, Group(t, k), oldest)
    ensures DeletedIn(t, done + {k}) == DeletedIn(t, done) + (Group(t, k) - {oldest})
    ensures MovedIn(t, done + {k}) == MovedIn(t, done) + if IsLegacy(t[oldest]) then {oldest} else {}
  {
    DoneWith(t, done, k);
    DuplicatesOfGroup(t, k, oldest);
    assert Group(t, k) * Duplicates(t) == Group(t, k) - {oldest};
    MoversOfGroup(t, k, oldest);
  }

  lemma MoversOfGroup(t: Table, k: Key, oldest: Id)
    requires k in TargetKeys(t) && Collides(t, k) && Equivalent(t, k) && IsOldest(t, Group(t, k), oldest)
    ensures MovedIn(t, {k}) == if IsLegacy(t[oldest]) then {oldest} else {}
  {
    DuplicatesOfGroup(t, k, oldest);
    hide Duplicates, Collides, IsOldest;
    forall id | id in Movers(t) && Target(t[id]) == k ensures id == oldest {
      CandidateInGroup(t, id);
    }
    if IsLegacy(t[oldest]) { assert oldest in Movers(t); }
  }

  lemma UncertainGroup(t: Table, done: set<Key>, k: Key)
    requires k in TargetKeys(t) && Uncertain(t, k)
    ensures DeletedIn(t, done + {k}) == DeletedIn(t, done) && MovedIn(t, done + {k}) == MovedIn(t, done)
  {
  }

  lemma SingleGroup(t: Table, done: set<Key>, id: Id)
    requires id in Candidates(t) && !Collides(t, Target(t[id]))
    ensures id in Movers(t)
    ensures DeletedIn(t, done + {Target(t[id])}) == DeletedIn(t, done)
    ensures MovedIn(t, done + {Target(t[id])}) == MovedIn(t, done) + {id}
  {
    var k := Target(t[id]);
    CandidateInGroup(t, id);
    forall other | other in Group(t, k) ensures other == id && other !in Duplicates(t) {
      NoDuplicatesOfGroup(t, k, other);
      SubsetSize({id, other}, Group(t, k));
    }
    forall other | other in Movers(t) && Target(t[other]) == k ensures other == id {
      CandidateInGroup(t, other);
    }
  }

  lemma NothingDone(t: Table)
    ensures Partly(t, DeletedIn(t, {}), MovedIn(t, {})) == t
  {
  }

  ghost predicate Reached(t: Table, done: set<Key>, rows: Table) {
    rows == Partly(t, DeletedIn(t, done), MovedIn(t, done)) && Unique(rows)
  }

  /** The statements for a key go through. */
  predicate GroupMoves(t: Table, referenced: set<Id>, k: Key) {
    && (forall id :: id in Group(t, k) && id in Duplicates(t) ==> id !in referenced)
    && (forall id :: id in Movers(t) && Target(t[id]) == k ==> !HeldOutside(t, k))
  }

  function TargetsOf(t: Table, ids: set<Id>): set<Key>
    requires ids <= t.Keys
  {
    set id | id in ids :: Target(t[id])
  }

  lemma MergeStarts(t: Table, done: set<Key>, k: Key, oldest: Id)
    requires k in TargetKeys(t) && k !in done && Collides(t, k) && Equivalent(t, k) && IsOldest(t, Group(t, k), oldest)
    ensures Group(t, k) <= t.Keys && Group(t, k) !! DeletedIn(t, done)
    ensures forall id :: id in Group(t, k) ==> !t[id].deleted
    ensures DeletedIn(t, done) + (Group(t, k) - {oldest}) <= Duplicates(t) && MovedIn(t, done) <= Movers(t)
    ensures IsLegacy(t[oldest]) ==>
      && oldest in Movers(t) && oldest !in MovedIn(t, done) && Target(t[oldest]) == k
      && Cleared(t, DeletedIn(t, done) + (Group(t, k) - {oldest}), oldest)
  {
  }

  lemma MergeMoves(t: Table, referenced: set<Id>, k: Key, oldest: Id)
    requires k in TargetKeys(t) && Collides(t, k) && Equivalent(t, k) && IsOldest(t, Group(t, k), oldest)
    ensures GroupMoves(t, referenced, k) <==>
      (Group(t, k) - {oldest}) !! referenced && (IsLegacy(t[oldest]) ==> !HeldOutside(t, k))
  {
    DuplicatesOfGroup(t, k, oldest);
    MoversOfGroup(t, k, oldest);
    hide Duplicates, Collides, IsOldest, Equivalent, HeldOutside;
    forall id ensures id in Movers(t) && Target(t[id]) == k <==> id in MovedIn(t, {k}) {
    }
  }

  lemma SingleStarts(t: Table, done: set<Key>, id: Id)
    requires id in Candidates(t) && !Collides(t, Target(t[id])) && Target(t[id]) !in done
    ensures DeletedIn(t, done) <= Duplicates(t) && MovedIn(t, done) <= Movers(t) && id !in MovedIn(t, done)
    ensures Cleared(t, DeletedIn(t, done), id)
  {
  }

  lemma SingleMoves(t: Table, referenced: set<Id>, id: Id)
    requires id in Movers(t) && !Collides(t, Target(t[id]))
    ensures GroupMoves(t, referenced, Target(t[id])) <==> !HeldOutside(t, Target(t[id]))
  {
    forall other | other in Group(t, Target(t[id])) ensures other !in Duplicates(t) {
      NoDuplicatesOfGroup(t, Target(t[id]), other);
    }
    hide Duplicates, Group, HeldOutside, Collides;
  }

  lemma UncertainMoves(t: Table, referenced: set<Id>, k: Key)
    requires Uncertain(t, k)
    ensures GroupMoves(t, referenced, k)
  {
  }

  lemma SingleIsNew(t: Table, done: set<Id>, id: Id)
    requires id in Candidates(t) && !Collides(t, Target(t[id])) && done <= Candidates(t) && id !in done
    ensures Target(t[id]) !in TargetsOf(t, done)
  {
    if Target(t[id]) in TargetsOf(t, done) {
      var other :| other in done && Target(t[other]) == Target(t[id]);
      CandidateInGroup(t, id);
      CandidateInGroup(t, other);
      SubsetSize({id, other}, Group(t, Target(t[id])));
    }
  }

  lemma TargetsOfMore(t: Table, ids: set<Id>, id: Id)
    requires ids <= t.Keys && id in t
    ensures TargetsOf(t, ids + {id}) == TargetsOf(t, ids) + {Target(t[id])}
  {
  }

  lemma AllTargets(t: Table, collisions: set<Key>, singles: set<Id>)
    requires forall k :: k in collisions <==> k in TargetKeys(t) && Collides(t, k)
    requires forall id :: id in singles <==> id in Candidates(t) && !Collides(t, Target(t[id]))
    ensures singles <= t.Keys && collisions + TargetsOf(t, singles) == TargetKeys(t)
  {
  }

  /** Applicability, key by key. */
  lemma ApplicableByGroup(t: Table, referenced: set<Id>, m: Manifest, collisions: set<Key>, singles: set<Id>)
    requires ManifestHolds(t, m)
    requires forall k :: k in collisions <==> k in TargetKeys(t) && Collides(t, k)
    requires forall id :: id in singles <==> id in Candidates(t) && !Collides(t, Target(t[id]))
    ensures collisions <= TargetKeys(t) && singles <= Candidates(t) && singles <= m.approvals.Keys
    ensures forall id :: id in singles ==> !Collides(t, Target(t[id])) && Target(t[id]) !in collisions
    ensures Applicable(t, referenced, m) <==>
      && (forall k :: k in collisions ==> GroupMoves(t, referenced, k))
      && forall id :: id in singles ==> m.approvals[id].action == Rekey && GroupMoves(t, referenced, Target(t[id]))
  {
    AllTargets(t, collisions, singles);
    AllMoveIff(t, referenced);
    hide Duplicates, Movers, GroupMoves, HeldOutside, Group, Collides;
  }

  lemma AllMoveIff(t: Table, referenced: set<Id>)
    ensures (forall k :: k in TargetKeys(t) ==> GroupMoves(t, referenced, k)) <==>
      Duplicates(t) !! referenced && forall id :: id in Movers(t) ==> !HeldOutside(t, Target(t[id]))
  {
  }

  lemma RepairedWhenAllDone(t: Table, collisions: set<Key>, singles: set<Id>, rows: Table)
    requires forall k :: k in collisions <==> k in TargetKeys(t) && Collides(t, k)
    requires forall id :: id in singles <==> id in Candidates(t) && !Collides(t, Target(t[id]))
    requires singles <= t.Keys && Reached(t, collisions + TargetsOf(t, singles), rows)
    ensures rows == Repaired(t) && Unique(rows)
  {
  }

  // ---------------------------------------------------------------- the repair, in the columns

  /** A live row of the importer. */
  predicate Imported(r: Row) {
    r.payload.clientId == "preseed-gemini" && r.payload.source == "gemini-conversation" && !r.deleted && r.key != None
  }

  /** With an old key: gemini-conv:, digits, a colon and a suffix on one line. */
  predicate Old(r: Row) {
    Imported(r) && r.key.value.Positional? && |r.key.value.suffix| > 0 && OnOneLine(r.key.value.suffix)
  }

  predicate OnOneLine(s: string) {
    '\n' !in s && '\r' !in s && '\U{2028}' !in s && '\U{2029}' !in s
  }

  function NewKey(r: Row): Key {
    ContentKey(r.payload.content, r.payload.createdAt)
  }

  /** The rows that are to have a key or have it: old ones with its content, and its holder. */
  ghost predicate Rivals(t: Table, k: Key, id: Id) {
    id in t && Imported(t[id]) && (if Old(t[id]) then NewKey(t[id]) == k else t[id].key == Some(k))
  }

  ghost predicate Wanted(t: Table, k: Key) {
    exists id :: id in t && Old(t[id]) && NewKey(t[id]) == k
  }

  ghost predicate Alike(t: Table, k: Key) {
    forall a, b :: a in t && b in t && Rivals(t, k, a) && Rivals(t, k, b) ==> t[a].payload == t[b].payload
  }

  /** The earlier update time first, the creation time standing for none; then the lesser id. */
  predicate Older(t: Table, a: Id, b: Id)
    requires a in t && b in t
  {
    var m := if t[a].updatedAt == None then t[a].payload.createdAt else t[a].updatedAt.value;
    var n := if t[b].updatedAt == None then t[b].payload.createdAt else t[b].updatedAt.value;
    if m != n then m < n else a < b
  }

  /** Another rival for the same key is older. */
  ghost predicate Outlived(t: Table, k: Key, id: Id)
    requires id in t
  {
    exists other :: other in t && Rivals(t, k, other) && Older(t, other, id)
  }

  /** Deleted: a rival for a key that old rows want, all rivals alike, and one of them older. */
  ghost predicate Dropped(t: Table, id: Id) {
    id in t && Imported(t[id]) &&
    var k := if Old(t[id]) then NewKey(t[id]) else t[id].key.value;
    Wanted(t, k) && Alike(t, k) && Outlived(t, k, id)
  }

  /** Every other row stays, an old one under its new key unless its rivals differ. */
  ghost predicate Repairs(t: Table, u: Table) {
    && (forall id :: id in u <==> id in t && !Dropped(t, id))
    && forall id :: id in u && id in t ==>
         u[id] == if Old(t[id]) && Alike(t, NewKey(t[id])) then t[id].(key := Some(NewKey(t[id]))) else t[id]
  }

  lemma OldIff(r: Row)
    ensures Old(r) <==> IsLegacy(r)
    ensures Imported(r) <==> InSource(r) && r.key.Some?
  {
  }

  lemma RivalsAreGroup(t: Table, k: Key, id: Id)
    requires k in TargetKeys(t)
    ensures id in Group(t, k) <==> Rivals(t, k, id)
  {
    if id in t { OldIff(t[id]); }
    WantedIff(t, k);
    hide Old, Imported, IsLegacy;
  }

  lemma WantedIff(t: Table, k: Key)
    ensures Wanted(t, k) <==> k in TargetKeys(t)
  {
    forall id | id in t ensures Old(t[id]) <==> IsLegacy(t[id]) {
      OldIff(t[id]);
    }
    hide Old, IsLegacy;
    if Wanted(t, k) {
      var id :| id in t && Old(t[id]) && NewKey(t[id]) == k;
      assert id in Candidates(t) && Target(t[id]) == k;
    }
    if k in TargetKeys(t) {
      var id :| id in Candidates(t) && Target(t[id]) == k;
      assert id in t && Old(t[id]) && NewKey(t[id]) == k;
    }
  }

  lemma AlikeIff(t: Table, k: Key)
    requires k in TargetKeys(t)
    ensures Alike(t, k) <==> Equivalent(t, k)
  {
    forall id ensures id in Group(t, k) <==> Rivals(t, k, id) {
      RivalsAreGroup(t, k, id);
    }
    hide Rivals;
    assert forall id :: id in Group(t, k) ==> id in t;
    hide Group;
  }

  lemma OldestIff(t: Table, k: Key, id: Id)
    requires k in TargetKeys(t) && id in Group(t, k)
    ensures id in t && (IsOldest(t, Group(t, k), id) <==> !Outlived(t, k, id))
  {
    assert forall x :: x in Group(t, k) ==> x in t;
    forall x ensures x in Group(t, k) <==> Rivals(t, k, x) {
      RivalsAreGroup(t, k, x);
    }
    hide Rivals, Group;
    forall x | x in t ensures NoLater(t, id, x) <==> !Older(t, x, id) {
    }
    hide NoLater, Older;
  }

  lemma DroppedIff(t: Table, id: Id)
    ensures Dropped(t, id) <==> id in Duplicates(t)
  {
    if Dropped(t, id) { DroppedIsDuplicate(t, id); }
    if id in Duplicates(t) { DuplicateIsDropped(t, id); }
  }

  lemma DroppedIsDuplicate(t: Table, id: Id)
    requires Dropped(t, id)
    ensures id in Duplicates(t)
  {
    var k := if Old(t[id]) then NewKey(t[id]) else t[id].key.value;
    assert Rivals(t, k, id) && Outlived(t, k, id);
    hide Rivals, Outlived, Alike, Wanted, Equivalent, Old;
    WantedIff(t, k);
    AlikeIff(t, k);
    RivalsAreGroup(t, k, id);
    OldestIff(t, k, id);
    OutlivedCollides(t, k, id);
    assert IsDuplicate(t, id, k);
  }

  lemma OutlivedCollides(t: Table, k: Key, id: Id)
    requires k in TargetKeys(t) && id in t && Rivals(t, k, id) && Outlived(t, k, id)
    ensures Collides(t, k)
  {
    var other :| other in t && Rivals(t, k, other) && Older(t, other, id);
    RivalsAreGroup(t, k, id);
    RivalsAreGroup(t, k, other);
    hide Rivals;
    SubsetSize({id, other}, Group(t, k));
  }

  lemma DuplicateIsDropped(t: Table, id: Id)
    requires id in Duplicates(t)
    ensures Dropped(t, id)
  {
    var k :| k in TargetKeys(t) && id in Group(t, k) && IsDuplicate(t, id, k);
    WantedIff(t, k);
    AlikeIff(t, k);
    RivalsAreGroup(t, k, id);
    OldestIff(t, k, id);
    hide Alike, Wanted, Equivalent, Outlived, IsOldest;
  }

  lemma MoverIff(t: Table, id: Id)
    ensures id in Movers(t) <==> id in t && Old(t[id]) && !Dropped(t, id) && Alike(t, NewKey(t[id]))
  {
    DroppedIff(t, id);
    if id in t {
      OldIff(t[id]);
      if Old(t[id]) {
        CandidateInGroup(t, id);
        AlikeIff(t, NewKey(t[id]));
        if !Collides(t, NewKey(t[id])) { LoneIsEquivalent(t, NewKey(t[id])); }
      }
    }
    hide Dropped, Alike, Equivalent, Old, Duplicates, Group, Collides;
  }

  lemma LoneIsEquivalent(t: Table, k: Key)
    requires !Collides(t, k)
    ensures Equivalent(t, k)
  {
    forall a, b | a in Group(t, k) && b in Group(t, k) ensures a == b {
      if a != b { SubsetSize({a, b}, Group(t, k)); }
    }
  }

  lemma RepairedRepairs(t: Table)
    ensures Repairs(t, Repaired(t))
  {
    forall id ensures Dropped(t, id) <==> id in Duplicates(t)
              ensures id in Movers(t) <==> id in t && Old(t[id]) && !Dropped(t, id) && Alike(t, NewKey(t[id])) {
      DroppedIff(t, id);
      MoverIff(t, id);
    }
    hide Dropped, Duplicates, Movers, Alike, Old;
  }

  /** The ids returned: the old rows now under their new keys, and the rows deleted. */
  ghost predicate Reports(t: Table, rekeyed: set<Id>, deleted: set<Id>) {
    && (forall id :: id in deleted <==> Dropped(t, id))
    && forall id :: id in rekeyed <==> id in t && Old(t[id]) && !Dropped(t, id) && Alike(t, NewKey(t[id]))
  }

  lemma RepairReports(t: Table)
    ensures Reports(t, Movers(t), Duplicates(t))
  {
    hide Dropped, Duplicates, Movers, Alike, Old;
    forall id ensures id in Duplicates(t) <==> Dropped(t, id)
              ensures id in Movers(t) <==> id in t && Old(t[id]) && !Dropped(t, id) && Alike(t, NewKey(t[id])) {
      DroppedIff(t, id);
      MoverIff(t, id);
    }
  }

  /** Two rivals at least for a key that old rows want. */
  ghost predicate Contested(t: Table, k: Key) {
    Wanted(t, k) && exists a: Id, b: Id :: a != b && Rivals(t, k, a) && Rivals(t, k, b)
  }

  /** Every old row and every rival of a contested key is approved as it is, for the key it is to have,
      and nothing else is; the oldest of rivals that are alike is retained and the others are deleted in
      its favour, rivals that differ are left, and what is not contested is re-keyed. */
  ghost predicate Approves(t: Table, m: Manifest) {
    && m.version == 1 && m.backupVerified
    && (forall id :: id in t && Old(t[id]) ==> id in m.approvals)
    && (forall id :: id in m.approvals ==> Concerns(t, id, m.approvals[id]))
    && (forall k, id :: Contested(t, k) && Rivals(t, k, id) ==> id in m.approvals && Settles(t, k, id, m.approvals[id]))
    && forall id :: id in t && Old(t[id]) && !Contested(t, NewKey(t[id])) ==>
         id in m.approvals && m.approvals[id].action == Rekey
  }

  /** The approval is of a row the repair is about, as it is, and names the key it is to have. */
  ghost predicate Concerns(t: Table, id: Id, a: Approval) {
    && id in t && (Old(t[id]) || exists k :: Contested(t, k) && Rivals(t, k, id))
    && a.expected == Fingerprint(id, t[id].key, t[id].payload, t[id].updatedAt)
    && Some(a.target) == (if Old(t[id]) then Some(NewKey(t[id])) else t[id].key)
  }

  ghost predicate Settles(t: Table, k: Key, id: Id, a: Approval)
    requires id in t
  {
    if !Alike(t, k) then a.action == Leave
    else
      && a.action == (if Outlived(t, k, id) then Delete else Retain)
      && a.retainId != None && Rivals(t, k, a.retainId.value) && !Outlived(t, k, a.retainId.value)
  }

  /** A row the script does not load has the key: a deleted one, or one of another source. */
  ghost predicate TakenElsewhere(t: Table, k: Key) {
    exists id :: id in t && t[id].payload.clientId == "preseed-gemini" && t[id].key == Some(k)
                 && (t[id].deleted || t[id].payload.source != "gemini-conversation")
  }

  ghost predicate MayRepair(t: Table, referenced: set<Id>, m: Manifest) {
    && Approves(t, m) && (forall id :: Dropped(t, id) ==> id !in referenced)
    && forall id :: id in t && Old(t[id]) && !Dropped(t, id) && Alike(t, NewKey(t[id])) ==>
         !TakenElsewhere(t, NewKey(t[id]))
  }

  lemma ContestedIff(t: Table, k: Key)
    ensures Contested(t, k) <==> k in TargetKeys(t) && Collides(t, k)
  {
    WantedIff(t, k);
    hide Wanted;
    if k in TargetKeys(t) {
      forall id ensures id in Group(t, k) <==> Rivals(t, k, id) {
        RivalsAreGroup(t, k, id);
      }
      hide Rivals;
      if Contested(t, k) {
        var a: Id, b: Id :| a != b && Rivals(t, k, a) && Rivals(t, k, b);
        SubsetSize({a, b}, Group(t, k));
      }
      if Collides(t, k) {
        var a :| a in Group(t, k);
        var rest := Group(t, k) - {a};
        assert |rest| > 0;
        var b :| b in rest;
        assert a != b && Rivals(t, k, a) && Rivals(t, k, b);
      }
    }
  }

  lemma SettlesIff(t: Table, k: Key, id: Id, a: Approval)
    requires k in TargetKeys(t) && id in Group(t, k)
    ensures id in t
    ensures Settles(t, k, id, a) <==> Handled(t, k, id, a)
  {
    AlikeIff(t, k);
    OldestIff(t, k, id);
    if a.retainId.Some? {
      RivalsAreGroup(t, k, a.retainId.value);
      if a.retainId.value in Group(t, k) { OldestIff(t, k, a.retainId.value); }
    }
    hide Rivals, Alike, Outlived, Equivalent;
  }

  lemma ConcernsIff(t: Table, id: Id, a: Approval)
    ensures Concerns(t, id, a) <==>
      && id in Loaded(t) && Approved(t, id, a)
      && (id in Candidates(t) || exists k :: k in TargetKeys(t) && Collides(t, k) && id in Group(t, k))
  {
    forall k ensures Contested(t, k) && Rivals(t, k, id) <==>
      k in TargetKeys(t) && Collides(t, k) && id in Group(t, k) {
      ContestedIff(t, k);
      if k in TargetKeys(t) { RivalsAreGroup(t, k, id); }
    }
    hide Contested, Rivals, TargetKeys, Collides;
    if id in t { OldIff(t[id]); }
    assert forall k :: k in TargetKeys(t) && id in Group(t, k) ==> id in Loaded(t);
    assert id in Candidates(t) ==> id in Loaded(t);
    hide Old, IsLegacy, Loaded, Group;
  }

  lemma ResolvedIff(t: Table, k: Key, approvals: map<Id, Approval>)
    requires k in TargetKeys(t)
    ensures Resolved(t, k, approvals) <==>
      forall id :: Rivals(t, k, id) ==> id in approvals && Settles(t, k, id, approvals[id])
  {
    hide Group, Settles, Handled, TargetKeys, Rivals;
    forall id ensures id in Group(t, k) <==> Rivals(t, k, id)
              ensures Rivals(t, k, id) ==> id in t
              ensures id in Group(t, k) && id in approvals ==>
                (Settles(t, k, id, approvals[id]) <==> Handled(t, k, id, approvals[id])) {
      RivalsAreGroup(t, k, id);
      RivalsExist(t, k, id);
      if id in Group(t, k) && id in approvals { SettlesIff(t, k, id, approvals[id]); }
    }
  }

  lemma RivalsExist(t: Table, k: Key, id: Id)
    ensures Rivals(t, k, id) ==> id in t
    ensures id in Loaded(t) ==> id in t
  {
  }

  lemma ApprovesIff(t: Table, m: Manifest)
    ensures Approves(t, m) <==>
      && ManifestHolds(t, m)
      && forall id :: id in Candidates(t) && !Collides(t, Target(t[id])) ==> m.approvals[id].action == Rekey
  {
    hide Candidates, Old, Concerns, Loaded, Approved, TargetKeys, Collides, Group, Contested, Resolved, Settles, Rivals;
    forall k, id ensures Rivals(t, k, id) ==> id in t {
      RivalsExist(t, k, id);
    }
    forall id ensures id in Loaded(t) ==> id in t {
      RivalsExist(t, OtherKey(""), id);
    }
    forall id ensures id in Candidates(t) <==> id in t && Old(t[id])
              ensures id in m.approvals ==> (Concerns(t, id, m.approvals[id]) <==>
                && id in Loaded(t) && Approved(t, id, m.approvals[id])
                && (id in Candidates(t) || exists k :: k in TargetKeys(t) && Collides(t, k) && id in Group(t, k)))
              ensures id in t && Old(t[id]) ==> (Contested(t, NewKey(t[id])) <==> Collides(t, Target(t[id]))) {
      if id in m.approvals { ConcernsIff(t, id, m.approvals[id]); }
      CandidateIff(t, id);
      if id in t && Old(t[id]) { ContestedIff(t, NewKey(t[id])); }
    }
    forall k ensures Contested(t, k) <==> k in TargetKeys(t) && Collides(t, k)
             ensures k in TargetKeys(t) ==> (Resolved(t, k, m.approvals) <==>
               forall id :: Rivals(t, k, id) ==> id in m.approvals && Settles(t, k, id, m.approvals[id])) {
      ContestedIff(t, k);
      if k in TargetKeys(t) { ResolvedIff(t, k, m.approvals); }
    }
  }

  lemma CandidateIff(t: Table, id: Id)
    ensures id in Candidates(t) <==> id in t && Old(t[id])
    ensures id in t && Old(t[id]) ==> NewKey(t[id]) == Target(t[id]) && Target(t[id]) in TargetKeys(t)
  {
    if id in t {
      OldIff(t[id]);
      if Old(t[id]) { CandidateInGroup(t, id); }
    }
    hide Old, IsLegacy;
  }

  lemma TakenElsewhereIff(t: Table, k: Key)
    ensures TakenElsewhere(t, k) <==> HeldOutside(t, k)
  {
  }

  lemma MayRepairIff(t: Table, referenced: set<Id>, m: Manifest)
    ensures MayRepair(t, referenced, m) <==> Applicable(t, referenced, m)
  {
    hide Approves, ManifestHolds, Dropped, Duplicates, Movers, Alike, Old, TakenElsewhere, HeldOutside, Collides;
    hide Candidates;
    ApprovesIff(t, m);
    forall id ensures Dropped(t, id) <==> id in Duplicates(t)
              ensures id in Movers(t) <==> id in t && Old(t[id]) && !Dropped(t, id) && Alike(t, NewKey(t[id]))
              ensures id in Movers(t) ==> (TakenElsewhere(t, NewKey(t[id])) <==> HeldOutside(t, Target(t[id]))) {
      DroppedIff(t, id);
      MoverIff(t, id);
      if id in t { TakenElsewhereIff(t, NewKey(t[id])); }
    }
  }

  datatype Result = Refused | Applied(rekeyed: set<Id>, deleted: set<Id>)

  class MemoriesTable {
    var rows: Table
    /** Rows that other tables refer to. */
    const referenced: set<Id>

    constructor (initial: Table, referenced: set<Id>)
      ensures rows == initial && this.referenced == referenced
    {
      rows, this.referenced := initial, referenced;
    }

    method DeleteRow(id: Id) returns (ok: bool)
      modifies this
      ensures ok <==> id in old(rows) && !old(rows)[id].deleted && id !in referenced
      ensures rows == if ok then old(rows) - {id} else old(rows)
    {
      ok := id in rows && !rows[id].deleted && id !in referenced;
      if ok { rows := rows - {id}; }
    }

    /** UPDATE … SET source_key; the constraint refuses a key that is held. */
    method MoveRow(id: Id, k: Key) returns (ok: bool)
      modifies this
      ensures ok <==> id in old(rows) && !old(rows)[id].deleted && !Conflict(old(rows), id, k)
      ensures rows == if ok then old(rows)[id := old(rows)[id].(key := Some(k))] else old(rows)
      ensures Unique(old(rows)) ==> Unique(rows)
    {
      ok := id in rows && !rows[id].deleted && !Conflict(rows, id, k);
      if ok { rows := rows[id := rows[id].(key := Some(k))]; }
    }

    /** The rows of a group but its oldest, one DELETE each. */
    method DeleteDuplicates(t: Table, ghost deleted: set<Id>, ghost moved: set<Id>, doomed: set<Id>) returns (ok: bool)
      requires rows == Partly(t, deleted, moved) && Unique(rows)
      requires doomed <= t.Keys && doomed !! deleted && forall id :: id in doomed ==> !t[id].deleted
      modifies this
      ensures ok <==> doomed !! referenced
      ensures ok ==> rows == Partly(t, deleted + doomed, moved) && Unique(rows)
    {
      var rest := doomed;
      while rest != {}
        invariant rest <= doomed && rows == Partly(t, deleted + (doomed - rest), moved)
        invariant Unique(rows) && (doomed - rest) !! referenced
        decreases rest
      {
        var id :| id in rest;
        ok := DeleteRow(id);
        if !ok { return; }
        rest := rest - {id};
      }
      assert deleted + (doomed - rest) == deleted + doomed;
      ok := true;
    }

    /** One row to its target, at any point of the repair. */
    method MoveToTarget(t: Table, ghost deleted: set<Id>, ghost moved: set<Id>, id: Id) returns (ok: bool)
      requires rows == Partly(t, deleted, moved) && Unique(rows)
      requires deleted <= Duplicates(t) && moved <= Movers(t)
      requires id in Movers(t) && id !in moved && Cleared(t, deleted, id)
      modifies this
      ensures ok <==> !HeldOutside(t, Target(t[id]))
      ensures ok ==> rows == Partly(t, deleted, moved + {id}) && Unique(rows)
    {
      ConflictIffHeldOutside(t, deleted, moved, id);
      ok := MoveRow(id, Target(t[id]));
    }

    method MergeGroup(t: Table, ghost done: set<Key>, k: Key) returns (ok: bool)
      requires Reached(t, done, rows) && k in TargetKeys(t) && k !in done && Collides(t, k) && Equivalent(t, k)
      modifies this
      ensures ok <==> GroupMoves(t, referenced, k)
      ensures ok ==> Reached(t, done + {k}, rows)
    {
      hide Duplicates, Movers, DeletedIn, MovedIn, Partly, Unique, TargetKeys, GroupMoves;
      OldestExists(t, Group(t, k));
      var oldest :| IsOldest(t, Group(t, k), oldest);
      ghost var deleted, moved := DeletedIn(t, done), MovedIn(t, done);
      MergeStarts(t, done, k, oldest);
      MergedGroup(t, done, k, oldest);
      MergeMoves(t, referenced, k, oldest);
      assert moved + {} == moved;
      ok := DeleteDuplicates(t, deleted, moved, Group(t, k) - {oldest});
      if ok && IsLegacy(t[oldest]) {
        ok := MoveToTarget(t, deleted + (Group(t, k) - {oldest}), moved, oldest);
      }
    }

    method MoveSingle(t: Table, ghost done: set<Key>, id: Id) returns (ok: bool)
      requires Reached(t, done, rows) && id in Candidates(t) && !Collides(t, Target(t[id])) && Target(t[id]) !in done
      modifies this
      ensures ok <==> GroupMoves(t, referenced, Target(t[id]))
      ensures ok ==> Reached(t, done + {Target(t[id])}, rows)
    {
      hide Duplicates, DeletedIn, Partly, Unique, TargetKeys;
      SingleGroup(t, done, id);
      SingleStarts(t, done, id);
      SingleMoves(t, referenced, id);
      ok := MoveToTarget(t, DeletedIn(t, done), MovedIn(t, done), id);
    }

    /** The collision groups, one after the other. */
    method MergeCollisions(t: Table, collisions: set<Key>) returns (ok: bool)
      requires rows == t && Unique(t) && collisions <= TargetKeys(t) && forall k :: k in collisions ==> Collides(t, k)
      modifies this
      ensures ok <==> forall k :: k in collisions ==> GroupMoves(t, referenced, k)
      ensures ok ==> Reached(t, collisions, rows)
    {
      NothingDone(t);
      hide Duplicates, Movers, DeletedIn, MovedIn, Partly, Unique, GroupMoves, Group, TargetKeys, Equivalent;
      var rest := collisions;
      assert collisions - rest == {};
      while rest != {}
        invariant rest <= collisions && Reached(t, collisions - rest, rows)
        invariant forall k :: k in collisions - rest ==> GroupMoves(t, referenced, k)
        decreases rest
      {
        var k :| k in rest;
        ghost var done := collisions - rest;
        assert collisions - (rest - {k}) == done + {k};
        if Equivalent(t, k) {
          ok := MergeGroup(t, done, k);
          if !ok { return; }
        } else {
          UncertainGroup(t, done, k);
          UncertainMoves(t, referenced, k);
        }
        rest := rest - {k};
      }
      assert collisions - rest == collisions;
      ok := true;
    }

    /** The candidates of no collision; each must be approved for a re-key. */
    method MoveSingles(t: Table, ghost collisions: set<Key>, singles: set<Id>, m: Manifest) returns (ok: bool)
      requires Reached(t, collisions, rows) && singles <= Candidates(t) && singles <= m.approvals.Keys
      requires forall id :: id in singles ==> !Collides(t, Target(t[id])) && Target(t[id]) !in collisions
      modifies this
      ensures ok <==> forall id :: id in singles ==>
        m.approvals[id].action == Rekey && GroupMoves(t, referenced, Target(t[id]))
      ensures ok ==> Reached(t, collisions + TargetsOf(t, singles), rows)
    {
      hide Duplicates, Movers, DeletedIn, MovedIn, Partly, Unique, GroupMoves, Group, TargetKeys, Collides;
      var left := singles;
      ghost var done := collisions;
      assert singles - left == {};
      while left != {}
        invariant left <= singles && done == collisions + TargetsOf(t, singles - left) && Reached(t, done, rows)
        invariant forall id :: id in singles - left ==>
          m.approvals[id].action == Rekey && GroupMoves(t, referenced, Target(t[id]))
        decreases left
      {
        var id :| id in left;
        if m.approvals[id].action != Rekey { return false; }
        SingleIsNew(t, singles - left, id);
        ok := MoveSingle(t, done, id);
        if !ok { return; }
        TargetsOfMore(t, singles - left, id);
        assert singles - (left - {id}) == singles - left + {id};
        done := done + {Target(t[id])};
        left := left - {id};
      }
      assert singles - left == singles;
      ok := true;
    }

    /** The transaction.  It commits exactly when the repair is applicable, and then the table is the
        repaired one; every other outcome rolls back. */
    method ApplyGeminiKeyRepair(m: Manifest) returns (result: Result)
      requires Unique(rows)
      modifies this
      ensures result.Applied? <==> MayRepair(old(rows), referenced, m)
      ensures result.Refused? ==> rows == old(rows)
      ensures result.Applied? ==>
        Repairs(old(rows), rows) && Reports(old(rows), result.rekeyed, result.deleted)
      ensures result.Applied? <==> Applicable(old(rows), referenced, m)
      ensures rows == if result.Applied? then Repaired(old(rows)) else old(rows)
      ensures result.Applied? ==> result.rekeyed == Movers(old(rows)) && result.deleted == Duplicates(old(rows))
      ensures Unique(rows)
    {
      var t := rows;
      MayRepairIff(t, referenced, m);
      RepairedRepairs(t);
      RepairReports(t);
      hide MayRepair, Repairs, Reports;
      if !ManifestHolds(t, m) { return Refused; }
      var collisions := set k | k in TargetKeys(t) && Collides(t, k);
      var singles := set id | id in Candidates(t) && !Collides(t, Target(t[id]));
      ApplicableByGroup(t, referenced, m, collisions, singles);
      hide *;
      var ok := MergeCollisions(t, collisions);
      if ok { ok := MoveSingles(t, collisions, singles, m); }
      if !ok {
        rows := t;
        return Refused;
      }
      RepairedWhenAllDone(t, collisions, singles, rows);
      return Applied(Movers(t), Duplicates(t));
    }
  }
}
